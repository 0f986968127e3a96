/** Exhaustion of the subnet pool is exact: requests fail when, and only when, nothing is left
    (network/subnets/selectors.go, network/subnets/subnets.go). */
module SubnetExhaustion {
  import opened Outcomes
  import opened Collections
  import opened IPUtil
  import opened Subnets
  import opened SubnetPool

  /** The allocated subnets that lie in the dynamic range. */
  function DynamicSubnets(dynamic: CIDR, m: Allocation): (s: set<CIDR>)
  {
    set n | n in m && !Disjoint(dynamic, n)
  }

  function BlockIndex(dynamic: CIDR, n: CIDR): (k: int)
  {
    (Base(n) - Base(dynamic)) / 4
  }

  lemma DynamicSubnetIsBlock(dynamic: CIDR, m: Allocation, n: CIDR)
    requires Inv(dynamic, m) && n in DynamicSubnets(dynamic, m)
    ensures 0 <= BlockIndex(dynamic, n) < Capacity(dynamic) && n == Block(dynamic, BlockIndex(dynamic, n))
  {
    hide Canonical, Value, Usable;
    assert SubnetOk(dynamic, n, m[n]);
    IsBlock(dynamic, n);
  }

  lemma BlockIsDynamic(dynamic: CIDR, k: nat)
    requires k < Capacity(dynamic)
    ensures !Disjoint(dynamic, Block(dynamic, k)) && BlockIndex(dynamic, Block(dynamic, k)) == k
  {
    hide Canonical, Value;
  }

  /** At most Capacity() dynamic subnets are ever allocated, and that many exactly when none is left. */
  lemma DynamicCount(dynamic: CIDR, m: Allocation)
    requires Inv(dynamic, m)
    ensures |DynamicSubnets(dynamic, m)| <= Capacity(dynamic)
    ensures AllTaken(dynamic, Taken(m)) <==> |DynamicSubnets(dynamic, m)| == Capacity(dynamic)
  {
    hide Canonical, Value, Usable, Disjoint, BlockIndex, NoDup, Capacity;
    var subs := DynamicSubnets(dynamic, m);
    var index := (n: CIDR) => BlockIndex(dynamic, n);
    forall n | n in subs
      ensures 0 <= index(n) < Capacity(dynamic) && n == Block(dynamic, index(n))
    {
      DynamicSubnetIsBlock(dynamic, m, n);
    }
    FillsRange(subs, index, 0, Capacity(dynamic));
    forall k: nat | k < Capacity(dynamic)
      ensures Hits(subs, index, k) <==> Block(dynamic, k) in Taken(m)
    {
      BlockIsDynamic(dynamic, k);
      if Block(dynamic, k) in Taken(m) {
        assert Block(dynamic, k) in subs && index(Block(dynamic, k)) == k;
      }
      if Hits(subs, index, k) {
        var n :| n in subs && index(n) == k;
        assert SubnetOk(dynamic, n, m[n]);
      }
    }
  }

  /** In a fresh /30 the only usable address is the third one. */
  lemma FreshBlockIP(m: Allocation, n: CIDR, r: Result<Network, Error>)
    requires n !in m && n.ones == 30 && InSubnetSpec(m, n, DynamicIP, r)
    ensures r.Ok? && r.value.subnet == n && Value(r.value.ip) == Base(n) + 2
  {
    hide Canonical;
    SizeOfFour(n);
    StartsAtFour(n);
    FitsAddressSpace(n);
    assert IPsOf(m, n) + Reserved(n) == Reserved(n);
    var q :| IPSpec(n, Reserved(n), DynamicIP, q) && r == WithIP(n, q);
    var third := FromValue(Base(n) + 2);
    assert Value(n.ip) == Base(n) && third !in Reserved(n);
    assert InBlock(n, Base(n) + 2);
    assert !AllUsed(n, Reserved(n));
    ChosenIPUsable(m, n, DynamicIP, r);
  }

  /** A request for a dynamic subnet succeeds exactly while fewer than Capacity() are allocated, and then
      yields the lowest free block with its third address. */
  lemma DynamicAcquireExact(dynamic: CIDR, m: Allocation, r: Result<Network, Error>)
    requires Inv(dynamic, m) && AcquireSpec(dynamic, m, DynamicSubnet, DynamicIP, r)
    ensures r.Ok? <==> |DynamicSubnets(dynamic, m)| < Capacity(dynamic)
    ensures r.Ok? ==>
      exists k: nat :: FirstFree(dynamic, Taken(m), k)
        && r.value.subnet == Block(dynamic, k) && Value(r.value.ip) == Base(dynamic) + 4 * k + 2
    ensures !r.Ok? ==> r == if RunsOff(dynamic) then Panic else Err(InsufficientSubnets)
  {
    hide Canonical, Value, Inv, FirstFree, AllTaken;
    DynamicCount(dynamic, m);
    if !AllTaken(dynamic, Taken(m)) {
      var n :| SubnetSpec(dynamic, Taken(m), DynamicSubnet, Ok(n)) && InSubnetSpec(m, n, DynamicIP, r);
      ChosenSubnetFits(dynamic, m, DynamicSubnet, n);
      FreshBlockIP(m, n, r);
      var k: nat :| FirstFree(dynamic, Taken(m), k) && n == Block(dynamic, k);
    }
  }

  /** From the empty pool exactly Capacity() dynamic requests succeed, in address order. */
  lemma {:induction false} CapacityAcquires(dynamic: CIDR, rs: seq<Result<Network, Error>>, ms: seq<Allocation>)
    requires |ms| == |rs| + 1 && ms[0] == map[]
    requires forall i | 0 <= i < |rs| ::
      AcquireSpec(dynamic, ms[i], DynamicSubnet, DynamicIP, rs[i]) && ms[i + 1] == After(ms[i], rs[i])
    ensures forall i | 0 <= i < |rs| :: rs[i].Ok? <==> i < Capacity(dynamic)
    ensures forall i: nat | i < |rs| && i < Capacity(dynamic) ::
      rs[i].value.subnet == Block(dynamic, i) && Value(rs[i].value.ip) == Base(dynamic) + 4 * i + 2
    ensures Inv(dynamic, ms[|rs|])
    ensures DynamicSubnets(dynamic, ms[|rs|]) == ms[|rs|].Keys == FirstBlocks(dynamic, |rs|)
  {
    hide *;
    if rs == [] {
      EmptyPool(dynamic);
      NoBlocks(dynamic);
      assert ms[0].Keys == {};
    } else {
      var k := |rs| - 1;
      CapacityAcquires(dynamic, rs[..k], ms[..k + 1]);
      assert AcquireSpec(dynamic, ms[k], DynamicSubnet, DynamicIP, rs[k]);
      NextAcquire(dynamic, ms[k], k, rs[k]);
    }
  }

  lemma NextAcquire(dynamic: CIDR, m: Allocation, k: nat, r: Result<Network, Error>)
    requires Inv(dynamic, m) && AcquireSpec(dynamic, m, DynamicSubnet, DynamicIP, r)
    requires DynamicSubnets(dynamic, m) == m.Keys == FirstBlocks(dynamic, k)
    ensures r.Ok? <==> k < Capacity(dynamic)
    ensures r.Ok? ==> r.value.subnet == Block(dynamic, k) && Value(r.value.ip) == Base(dynamic) + 4 * k + 2
    ensures Inv(dynamic, After(m, r))
    ensures DynamicSubnets(dynamic, After(m, r)) == After(m, r).Keys == FirstBlocks(dynamic, k + 1)
  {
    hide AcquireSpec, Canonical, Value, Inv, Disjoint, Capacity, Block;
    AcquireKeepsInv(dynamic, m, DynamicSubnet, DynamicIP, r);
    DynamicAcquireExact(dynamic, m, r);
    FirstBlocksSize(dynamic, k);
    FirstBlocksGrow(dynamic, k);
    if r.Ok? {
      NextBlock(dynamic, m, k, r);
    }
  }

  lemma NoBlocks(dynamic: CIDR)
    ensures DynamicSubnets(dynamic, map[]) == {} == FirstBlocks(dynamic, 0)
  {
  }

  /** The first k blocks, or all blocks when there are fewer. */
  function FirstBlocks(dynamic: CIDR, k: nat): (s: set<CIDR>)
  {
    set i: nat | i < k && i < Capacity(dynamic) :: Block(dynamic, i)
  }

  lemma {:induction false} FirstBlocksSize(dynamic: CIDR, k: nat)
    ensures |FirstBlocks(dynamic, k)| == if k < Capacity(dynamic) then k else Capacity(dynamic)
  {
    hide *;
    if k == 0 {
      NoBlocks(dynamic);
    } else {
      FirstBlocksSize(dynamic, k - 1);
      FirstBlocksGrow(dynamic, k - 1);
    }
  }

  lemma FirstBlocksGrow(dynamic: CIDR, k: nat)
    ensures k >= Capacity(dynamic) ==> FirstBlocks(dynamic, k + 1) == FirstBlocks(dynamic, k)
    ensures k < Capacity(dynamic) ==> Block(dynamic, k) !in FirstBlocks(dynamic, k)
    ensures k < Capacity(dynamic) ==> FirstBlocks(dynamic, k + 1) == FirstBlocks(dynamic, k) + {Block(dynamic, k)}
  {
    hide Canonical, Value, Capacity;
  }

  lemma NextBlock(dynamic: CIDR, m: Allocation, k: nat, r: Result<Network, Error>)
    requires Inv(dynamic, m) && AcquireSpec(dynamic, m, DynamicSubnet, DynamicIP, r) && r.Ok?
    requires DynamicSubnets(dynamic, m) == m.Keys == FirstBlocks(dynamic, k) && k < Capacity(dynamic)
    ensures r.value.subnet == Block(dynamic, k) && Value(r.value.ip) == Base(dynamic) + 4 * k + 2
    ensures DynamicSubnets(dynamic, Add(m, r.value)) == Add(m, r.value).Keys == FirstBlocks(dynamic, k + 1)
  {
    hide AcquireSpec, Canonical, Value, Disjoint, Capacity, FirstBlocks, Usable, NoDup;
    DynamicAcquireExact(dynamic, m, r);
    var j: nat :|
      && FirstFree(dynamic, Taken(m), j) && r.value.subnet == Block(dynamic, j)
      && Value(r.value.ip) == Base(dynamic) + 4 * j + 2;
    assert Taken(m) == m.Keys by { assert forall n | n in m :: SubnetOk(dynamic, n, m[n]); }
    FirstFreeAfter(dynamic, k, j);
    FirstBlocksGrow(dynamic, k);
    BlockIsDynamic(dynamic, k);
  }

  lemma FirstFreeAfter(dynamic: CIDR, k: nat, j: nat)
    requires k < Capacity(dynamic) && FirstFree(dynamic, FirstBlocks(dynamic, k), j)
    ensures j == k
  {
    hide Canonical, Value, Capacity;
    FirstBlocksGrow(dynamic, k);
  }

  // ----- addresses of one subnet

  /** All addresses of a subnet are used exactly when all usable ones are handed out. */
  lemma IPCount(n: CIDR, ips: seq<IP>)
    requires Base(n) + 1 < LIMIT && NoDup(ips) && forall ip | ip in ips :: Usable(n, ip)
    ensures |ips| <= UsableCount(n)
    ensures AllUsed(n, ips + Reserved(n)) <==> |ips| == UsableCount(n)
  {
    hide Canonical, Value, Size;
    FitsAddressSpace(n);
    SizeOfFour(n);
    var value := (ip: IP) => Value(ip);
    forall a, b | a in Elems(ips) && b in Elems(ips) && value(a) == value(b)
      ensures a == b
    {
      ValueInjective(a, b);
    }
    NoDupSize(ips);
    if ips != [] {
      NothingUsable(n, ips[0]);
    }
    var lo, hi := Base(n) + 2, Base(n) + 2 + UsableCount(n);
    FillsRange(Elems(ips), value, lo, hi);
    forall v: nat | lo <= v < hi
      ensures FromValue(v) in ips + Reserved(n) <==> Hits(Elems(ips), value, v)
    {
      UsedIsHit(n, ips, v);
    }
    if AllUsed(n, ips + Reserved(n)) {
      forall v | lo <= v < hi
        ensures Hits(Elems(ips), value, v)
      {
        assert FromValue(v) in ips + Reserved(n);
      }
    }
    if forall v | lo <= v < hi :: Hits(Elems(ips), value, v) {
      forall v: nat | v < LIMIT && InBlock(n, v)
        ensures FromValue(v) in ips + Reserved(n)
      {
        if !(lo <= v < hi) {
          ReservedIPs(n, v);
        }
      }
    }
  }

  lemma UsedIsHit(n: CIDR, ips: seq<IP>, v: nat)
    requires Base(n) + 1 < LIMIT && Base(n) + 1 < v < Last(n) && v < LIMIT
    ensures FromValue(v) in ips + Reserved(n) <==> Hits(Elems(ips), (ip: IP) => Value(ip), v)
  {
    hide Canonical, Value;
    FitsAddressSpace(n);
    var f := (ip: IP) => Value(ip);
    assert FromValue(v) !in Reserved(n);
    if FromValue(v) in ips {
      assert FromValue(v) in Elems(ips) && f(FromValue(v)) == v;
    }
    if Hits(Elems(ips), f, v) {
      var ip :| ip in Elems(ips) && f(ip) == v;
      ValueInjective(ip, FromValue(v));
    }
  }

  lemma ReservedIPs(n: CIDR, v: nat)
    requires Base(n) + 1 < LIMIT && v < LIMIT && (v == Base(n) || v == Base(n) + 1 || v == Last(n))
    ensures FromValue(v) in Reserved(n)
  {
    hide Canonical, Value;
    FitsAddressSpace(n);
    if v == Base(n) {
      ValueInjective(FromValue(v), n.ip);
      assert Reserved(n)[0] == FromValue(v);
    } else if v == Base(n) + 1 {
      assert Reserved(n)[1] == FromValue(v);
    } else {
      assert Reserved(n)[2] == FromValue(v);
    }
  }

  /** A request for any address of a subnet succeeds exactly while not all its usable addresses
      are handed out. */
  lemma DynamicIPExact(dynamic: CIDR, m: Allocation, n: CIDR, r: Result<Network, Error>)
    requires Inv(dynamic, m) && InSubnetSpec(m, n, DynamicIP, r)
    ensures r.Ok? <==> |IPsOf(m, n)| < UsableCount(n)
    ensures !r.Ok? ==> r == if Base(n) + Size(n) == LIMIT then Panic else Err(InsufficientIPs)
  {
    hide Canonical, Value, AllUsed, Usable;
    FitsAddressSpace(n);
    SizeOfFour(n);
    assert n in m ==> SubnetOk(dynamic, n, m[n]);
    if Base(n) + 1 < LIMIT {
      IPCount(n, IPsOf(m, n));
    } else if n in m {
      assert Usable(n, m[n][0]);
      NothingUsable(n, m[n][0]);
    }
  }

  lemma NothingUsable(n: CIDR, ip: IP)
    requires Usable(n, ip)
    ensures Size(n) >= 4
  {
  }

  /** A static subnet of size 2^(32-p) serves exactly its usable addresses: requests for it succeed
      until that many are out. */
  lemma {:induction false} StaticSubnetServes(
    dynamic: CIDR, n: CIDR, rs: seq<Result<Network, Error>>, ms: seq<Allocation>)
    requires |ms| == |rs| + 1 && Inv(dynamic, ms[0])
    requires Disjoint(dynamic, n) && SubnetFits(dynamic, ms[0], n)
    requires forall i | 0 <= i < |rs| ::
      AcquireSpec(dynamic, ms[i], StaticSubnet(n), DynamicIP, rs[i]) && ms[i + 1] == After(ms[i], rs[i])
    ensures forall i | 0 <= i < |rs| :: rs[i].Ok? <==> |IPsOf(ms[0], n)| + i < UsableCount(n)
    ensures Inv(dynamic, ms[|rs|]) && SubnetFits(dynamic, ms[|rs|], n)
    ensures |IPsOf(ms[|rs|], n)| ==
      if |IPsOf(ms[0], n)| + |rs| < UsableCount(n) then |IPsOf(ms[0], n)| + |rs| else UsableCount(n)
  {
    hide AcquireSpec, Canonical, Value, Inv, Disjoint, Usable;
    if rs == [] {
      CountBound(dynamic, ms[0], n);
    } else {
      var k := |rs| - 1;
      StaticSubnetServes(dynamic, n, rs[..k], ms[..k + 1]);
      assert AcquireSpec(dynamic, ms[k], StaticSubnet(n), DynamicIP, rs[k]);
      AcquireKeepsInv(dynamic, ms[k], StaticSubnet(n), DynamicIP, rs[k]);
      StaticAcquire(dynamic, ms[k], n, rs[k]);
      DynamicIPExact(dynamic, ms[k], n, rs[k]);
    }
  }

  lemma CountBound(dynamic: CIDR, m: Allocation, n: CIDR)
    requires Inv(dynamic, m)
    ensures |IPsOf(m, n)| <= UsableCount(n)
  {
    hide Canonical, Value, AllUsed, NoDup, Usable;
    SizeOfFour(n);
    FitsAddressSpace(n);
    if n in m {
      assert SubnetOk(dynamic, n, m[n]);
      assert Usable(n, m[n][0]);
      NothingUsable(n, m[n][0]);
      IPCount(n, m[n]);
    }
  }

  /** A static request that fits reaches address selection in that very subnet. */
  lemma StaticAcquire(dynamic: CIDR, m: Allocation, n: CIDR, r: Result<Network, Error>)
    requires Inv(dynamic, m) && Disjoint(dynamic, n) && SubnetFits(dynamic, m, n)
    requires AcquireSpec(dynamic, m, StaticSubnet(n), DynamicIP, r)
    ensures InSubnetSpec(m, n, DynamicIP, r)
    ensures r.Ok? ==> r.value.subnet == n
  {
    hide Canonical, Value, Usable, IPSpec, Base, Size;
    forall e | e in Taken(m)
      ensures Disjoint(n, e) || n == e
    {
    }
    assert SubnetSpec(dynamic, Taken(m), StaticSubnet(n), Ok(n));
  }
}
