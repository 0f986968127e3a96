/** Which containers share which bridge (network/bridgemgr/mgr.go). */
module BridgeMgr {
  import opened Outcomes
  import opened Collections
  import opened IPUtil

  type Name = string

  datatype Error = CreateFailed | DestroyFailed | EmptyBridgeName | BridgeOfOtherSubnet(subnet: CIDR)

  /** The three maps of the manager. */
  datatype Maps = Maps(
    owners: map<Name, seq<string>>,
    bridgeSubnet: map<Name, CIDR>,
    subnetBridge: map<CIDR, Name>)

  const EMPTY := Maps(map[], map[], map[])

  function OwnersOf(st: Maps, b: Name): (ids: seq<string>)
  {
    if b in st.owners then st.owners[b] else []
  }

  predicate IsReserved(st: Maps, b: Name)
  {
    b in st.bridgeSubnet
  }

  /** The maps agree: subnets and bridges are in one-to-one correspondence, and the bridges are
      those with at least one owner. */
  ghost predicate Inv(st: Maps)
  {
    && st.owners.Keys == st.bridgeSubnet.Keys
    && (forall b | b in st.owners :: st.owners[b] != [])
    && (forall b | b in st.bridgeSubnet ::
          st.bridgeSubnet[b] in st.subnetBridge && st.subnetBridge[st.bridgeSubnet[b]] == b)
    && (forall s | s in st.subnetBridge ::
          st.subnetBridge[s] in st.bridgeSubnet && st.bridgeSubnet[st.subnetBridge[s]] == s)
  }

  // ----- the operations on states

  function BridgeFor(st: Maps, subnet: CIDR, name: Name): (b: Name)
  {
    if subnet in st.subnetBridge then st.subnetBridge[subnet] else name
  }

  function AddOwner(st: Maps, b: Name, subnet: CIDR, id: string): (st': Maps)
  {
    Maps(st.owners[b := OwnersOf(st, b) + [id]], st.bridgeSubnet[b := subnet], st.subnetBridge[subnet := b])
  }

  /** Reserve when the bridge exists or could be made. */
  function Reserved(st: Maps, subnet: CIDR, id: string, name: Name): (st': Maps)
  {
    var b := BridgeFor(st, subnet, name);
    if subnet in st.subnetBridge then st.(owners := st.owners[b := OwnersOf(st, b) + [id]])
    else AddOwner(st, b, subnet, id)
  }

  function WithoutFirst(ids: seq<string>, id: string): (r: seq<string>)
  {
    if ids == [] then []
    else if ids[0] == id then ids[1..]
    else [ids[0]] + WithoutFirst(ids[1..], id)
  }

  predicate LastOwner(st: Maps, b: Name, id: string)
  {
    WithoutFirst(OwnersOf(st, b), id) == []
  }

  /** The locked part of Release. */
  function Released(st: Maps, b: Name, id: string): (st': Maps)
  {
    if !LastOwner(st, b, id) then st.(owners := st.owners[b := WithoutFirst(OwnersOf(st, b), id)])
    else Maps(
      st.owners - {b},
      st.bridgeSubnet - {b},
      if b in st.bridgeSubnet then st.subnetBridge - {st.bridgeSubnet[b]} else st.subnetBridge)
  }

  function RereserveError(st: Maps, b: Name, subnet: CIDR): (e: Option<Error>)
  {
    if b == "" then Some(EmptyBridgeName)
    else if b in st.bridgeSubnet && st.bridgeSubnet[b] != subnet then Some(BridgeOfOtherSubnet(st.bridgeSubnet[b]))
    else None
  }

  function Rereserved(st: Maps, b: Name, subnet: CIDR, id: string): (st': Maps)
  {
    if RereserveError(st, b, subnet).Some? then st else AddOwner(st, b, subnet, id)
  }

  // ----- the manager

  class Mgr {
    const prefix: string
    var owners: map<Name, seq<string>>
    var bridgeSubnet: map<Name, CIDR>
    var subnetBridge: map<CIDR, Name>

    constructor (prefix: string)
      ensures this.prefix == prefix && Now() == EMPTY
    {
      this.prefix := prefix;
      owners, bridgeSubnet, subnetBridge := map[], map[], map[];
    }

    function Now(): (st: Maps)
      reads this
    {
      Maps(owners, bridgeSubnet, subnetBridge)
    }

    /** `name` is what the name generator yields if it is asked, `created` the builder's answer. */
    method Reserve(subnet: CIDR, id: string, name: Name, created: bool) returns (r: Result<Name, Error>)
      modifies this
      ensures subnet !in old(subnetBridge) && !created ==> r == Err(CreateFailed) && Now() == old(Now())
      ensures subnet in old(subnetBridge) || created ==>
        r == Ok(BridgeFor(old(Now()), subnet, name)) && Now() == Reserved(old(Now()), subnet, id, name)
    {
      var b;
      if subnet in subnetBridge {
        b := subnetBridge[subnet];
      } else {
        b := name;
        if !created {
          return Err(CreateFailed);
        }
        subnetBridge := subnetBridge[subnet := b];
        bridgeSubnet := bridgeSubnet[b := subnet];
      }
      owners := owners[b := (if b in owners then owners[b] else []) + [id]];
      return Ok(b);
    }

    /** `destroys` tells whether the builder was asked to destroy the bridge, `destroyed` is its answer. */
    method Release(b: Name, id: string, destroyed: bool) returns (r: Result<(), Error>, destroys: bool)
      modifies this
      ensures Now() == Released(old(Now()), b, id)
      ensures destroys <==> LastOwner(old(Now()), b, id)
      ensures r == if destroys && !destroyed then Err(DestroyFailed) else Ok(())
    {
      hide WithoutFirst, Canonical;
      ghost var before := Now();
      var rest := RemoveOwner(if b in owners then owners[b] else [], id);
      assert rest == WithoutFirst(OwnersOf(before, b), id);
      owners := owners[b := rest];
      destroys := |owners[b]| == 0;
      if destroys {
        owners := owners - {b};
        assert owners == before.owners - {b};
        if b in bridgeSubnet {
          subnetBridge := subnetBridge - {bridgeSubnet[b]};
        }
        bridgeSubnet := bridgeSubnet - {b};
      }
      if destroys && !destroyed {
        return Err(DestroyFailed), true;
      }
      return Ok(()), destroys;
    }

    method Rereserve(b: Name, subnet: CIDR, id: string) returns (r: Result<(), Error>)
      modifies this
      ensures Now() == Rereserved(old(Now()), b, subnet, id)
      ensures r == match RereserveError(old(Now()), b, subnet) case None => Ok(()) case Some(e) => Err(e)
    {
      if b == "" {
        return Err(EmptyBridgeName);
      }
      if b in bridgeSubnet && bridgeSubnet[b] != subnet {
        return Err(BridgeOfOtherSubnet(bridgeSubnet[b]));
      }
      subnetBridge := subnetBridge[subnet := b];
      owners := owners[b := (if b in owners then owners[b] else []) + [id]];
      bridgeSubnet := bridgeSubnet[b := subnet];
      return Ok(());
    }

    /** The bridges that Prune asks the builder to destroy, given the bridges that exist. */
    method Prune(list: seq<Name>) returns (destroyed: seq<Name>)
      ensures forall b :: b in destroyed <==> b in list && prefix <= b && !IsReserved(Now(), b)
      ensures forall b | b in destroyed :: multiset(destroyed)[b] == multiset(list)[b]
    {
      destroyed := [];
      for i := 0 to |list|
        invariant forall b :: b in destroyed <==> b in list[..i] && prefix <= b && !IsReserved(Now(), b)
        invariant forall b | b in destroyed :: multiset(destroyed)[b] == multiset(list[..i])[b]
      {
        assert list[..i + 1] == list[..i] + [list[i]];
        if prefix <= list[i] && list[i] !in bridgeSubnet {
          destroyed := destroyed + [list[i]];
        }
      }
      assert list[..|list|] == list;
    }
  }

  method RemoveOwner(ids: seq<string>, id: string) returns (r: seq<string>)
    ensures r == WithoutFirst(ids, id)
  {
    for i := 0 to |ids|
      invariant id !in ids[..i]
    {
      if ids[i] == id {
        WithoutFirstAt(ids, id, i);
        return ids[..i] + ids[i + 1..];
      }
    }
    assert ids[..|ids|] == ids;
    WithoutFirstAbsent(ids, id);
    return ids;
  }

  lemma {:induction false} WithoutFirstAt(ids: seq<string>, id: string, i: nat)
    requires i < |ids| && ids[i] == id && id !in ids[..i]
    ensures WithoutFirst(ids, id) == RemoveAt(ids, i)
  {
    if i > 0 {
      assert ids[0] in ids[..i];
      assert ids[1..][..i - 1] == ids[..i][1..];
      WithoutFirstAt(ids[1..], id, i - 1);
    }
  }

  lemma {:induction false} WithoutFirstAbsent(ids: seq<string>, id: string)
    requires id !in ids
    ensures WithoutFirst(ids, id) == ids
  {
    if ids != [] {
      WithoutFirstAbsent(ids[1..], id);
    }
  }

  lemma {:induction false} WithoutFirstMultiset(ids: seq<string>, id: string)
    ensures multiset(WithoutFirst(ids, id)) == multiset(ids) - multiset{id}
  {
    if ids != [] {
      assert ids == [ids[0]] + ids[1..];
      if ids[0] != id {
        WithoutFirstMultiset(ids[1..], id);
      }
    }
  }

  // ----- every operation keeps the maps in agreement

  /** A generated name must be new: that is exactly what Reserve needs to keep the maps in agreement. */
  lemma ReserveKeepsInvIff(st: Maps, subnet: CIDR, id: string, name: Name)
    requires Inv(st)
    ensures Inv(Reserved(st, subnet, id, name)) <==> subnet in st.subnetBridge || !IsReserved(st, name)
  {
    hide Canonical;
    if subnet !in st.subnetBridge && IsReserved(st, name) {
      var st' := Reserved(st, subnet, id, name);
      var s := st.bridgeSubnet[name];
      assert s in st'.subnetBridge && st'.bridgeSubnet[st'.subnetBridge[s]] != s;
    }
  }

  lemma ReleaseKeepsInv(st: Maps, b: Name, id: string)
    requires Inv(st)
    ensures Inv(Released(st, b, id))
  {
    hide Canonical;
  }

  /** Rereserve overwrites the subnet's bridge: it keeps the maps in agreement exactly when the subnet
      has no bridge yet or has this one. */
  lemma RereserveKeepsInvIff(st: Maps, b: Name, subnet: CIDR, id: string)
    requires Inv(st) && RereserveError(st, b, subnet).None?
    ensures Inv(Rereserved(st, b, subnet, id)) <==> subnet !in st.subnetBridge || st.subnetBridge[subnet] == b
  {
    hide Canonical, Inv;
    if subnet in st.subnetBridge && st.subnetBridge[subnet] != b {
      OtherBridgeBreaksInv(st, b, subnet, id);
    } else {
      AddOwnerKeepsInv(st, b, subnet, id);
    }
  }

  lemma AddOwnerKeepsInv(st: Maps, b: Name, subnet: CIDR, id: string)
    requires Inv(st) && (b in st.bridgeSubnet ==> st.bridgeSubnet[b] == subnet)
    requires subnet in st.subnetBridge ==> st.subnetBridge[subnet] == b
    ensures Inv(AddOwner(st, b, subnet, id))
  {
    hide Canonical, OwnersOf;
  }

  lemma OtherBridgeBreaksInv(st: Maps, b: Name, subnet: CIDR, id: string)
    requires Inv(st) && subnet in st.subnetBridge && st.subnetBridge[subnet] != b
    ensures !Inv(AddOwner(st, b, subnet, id))
  {
    hide Canonical, OwnersOf;
    var st', c := AddOwner(st, b, subnet, id), st.subnetBridge[subnet];
    assert c in st'.bridgeSubnet && st'.bridgeSubnet[c] == subnet;
  }

  // ----- whole runs

  datatype Event =
    | Reserve(subnet: CIDR, id: string, name: Name, created: bool)
    | Release(b: Name, id: string)
    | Rereserve(b: Name, subnet: CIDR, id: string)

  function After(st: Maps, e: Event): (st': Maps)
  {
    match e
    case Reserve(subnet, id, name, created) =>
      if subnet in st.subnetBridge || created then Reserved(st, subnet, id, name) else st
    case Release(b, id) => Released(st, b, id)
    case Rereserve(b, subnet, id) => Rereserved(st, b, subnet, id)
  }

  /** The reservation an event adds, as (bridge, container). */
  function Granted(st: Maps, e: Event): (g: multiset<(Name, string)>)
  {
    match e
    case Reserve(subnet, id, name, created) =>
      if subnet in st.subnetBridge || created then multiset{(BridgeFor(st, subnet, name), id)} else multiset{}
    case Release(b, id) => multiset{}
    case Rereserve(b, subnet, id) => if RereserveError(st, b, subnet).None? then multiset{(b, id)} else multiset{}
  }

  /** Generated names are not in use, and restored reservations agree with the maps. */
  predicate Consistent(st: Maps, e: Event)
  {
    match e
    case Reserve(subnet, id, name, created) => subnet in st.subnetBridge || !IsReserved(st, name)
    case Release(b, id) => true
    case Rereserve(b, subnet, id) => subnet in st.subnetBridge ==> st.subnetBridge[subnet] == b
  }

  function Run(es: seq<Event>): (st: Maps)
  {
    if es == [] then EMPTY else After(Run(es[..|es| - 1]), es[|es| - 1])
  }

  ghost predicate ConsistentRun(es: seq<Event>)
  {
    forall i | 0 <= i < |es| :: Consistent(Run(es[..i]), es[i])
  }

  /** The reservations granted and not yet released. */
  function Outstanding(es: seq<Event>): (m: multiset<(Name, string)>)
  {
    if es == [] then multiset{}
    else
      var k := |es| - 1;
      var before := Outstanding(es[..k]);
      if es[k].Release? then before - multiset{(es[k].b, es[k].id)} else before + Granted(Run(es[..k]), es[k])
  }

  lemma OwnersAfter(st: Maps, e: Event, b: Name, id: string)
    ensures multiset(OwnersOf(After(st, e), b))[id] ==
      if e.Release? then (multiset(OwnersOf(st, b)) - (if e.b == b then multiset{e.id} else multiset{}))[id]
      else multiset(OwnersOf(st, b))[id] + Granted(st, e)[(b, id)]
  {
    hide Canonical, Reserved, Released, Rereserved, OwnersOf, BridgeFor, RereserveError;
    match e
    case Reserve(subnet, i, name, _) => OwnersReserved(st, subnet, i, name, b);
    case Rereserve(c, subnet, i) => OwnersRereserved(st, c, subnet, i, b);
    case Release(c, i) =>
      OwnersReleased(st, c, i, b);
      WithoutFirstMultiset(OwnersOf(st, c), i);
  }

  lemma OwnersReserved(st: Maps, subnet: CIDR, id: string, name: Name, b: Name)
    ensures OwnersOf(Reserved(st, subnet, id, name), b) ==
      if b == BridgeFor(st, subnet, name) then OwnersOf(st, b) + [id] else OwnersOf(st, b)
  {
    hide Canonical;
  }

  lemma OwnersRereserved(st: Maps, c: Name, subnet: CIDR, id: string, b: Name)
    ensures OwnersOf(Rereserved(st, c, subnet, id), b) ==
      if b == c && RereserveError(st, c, subnet).None? then OwnersOf(st, b) + [id] else OwnersOf(st, b)
  {
    hide Canonical;
  }

  lemma OwnersReleased(st: Maps, c: Name, id: string, b: Name)
    ensures OwnersOf(Released(st, c, id), b) == if b == c then WithoutFirst(OwnersOf(st, b), id) else OwnersOf(st, b)
  {
    hide Canonical;
  }

  lemma ReservedKeys(st: Maps, subnet: CIDR, id: string, name: Name)
    ensures Reserved(st, subnet, id, name).bridgeSubnet.Keys ==
      if subnet in st.subnetBridge then st.bridgeSubnet.Keys else st.bridgeSubnet.Keys + {name}
  {
    hide Canonical;
  }

  lemma ReleasedKeys(st: Maps, b: Name, id: string)
    ensures Released(st, b, id).bridgeSubnet.Keys <= st.bridgeSubnet.Keys
  {
    hide Canonical;
  }

  lemma AfterKeepsInv(st: Maps, e: Event)
    requires Inv(st) && Consistent(st, e)
    ensures Inv(After(st, e))
  {
    hide Inv, Canonical;
    match e
    case Reserve(subnet, id, name, _) => ReserveKeepsInvIff(st, subnet, id, name);
    case Release(b, id) => ReleaseKeepsInv(st, b, id);
    case Rereserve(b, subnet, id) =>
      if RereserveError(st, b, subnet).None? {
        RereserveKeepsInvIff(st, b, subnet, id);
      }
  }

  /** Over every run the maps agree and each owner list is the multiset of reservations not yet released,
      so a bridge is kept exactly while someone holds a reservation of it. */
  lemma {:induction false} OwnersAreOutstanding(es: seq<Event>, b: Name, id: string)
    requires ConsistentRun(es)
    ensures Inv(Run(es))
    ensures multiset(OwnersOf(Run(es), b))[id] == Outstanding(es)[(b, id)]
  {
    hide Inv, Canonical, After, Granted, Consistent;
    if es == [] {
      EmptyInv();
    } else {
      var k := |es| - 1;
      assert forall i | 0 <= i < k :: es[..k][..i] == es[..i];
      OwnersAreOutstanding(es[..k], b, id);
      assert Consistent(Run(es[..k]), es[k]);
      AfterKeepsInv(Run(es[..k]), es[k]);
      OwnersAfter(Run(es[..k]), es[k], b, id);
    }
  }

  lemma EmptyInv()
    ensures Inv(EMPTY)
  {
  }

  lemma ReservedIffOutstanding(es: seq<Event>, b: Name)
    requires ConsistentRun(es)
    ensures IsReserved(Run(es), b) <==> exists id :: (b, id) in Outstanding(es)
  {
    hide Canonical, Run, Outstanding, ConsistentRun;
    OwnersAreOutstanding(es, b, "");
    var ids := OwnersOf(Run(es), b);
    if IsReserved(Run(es), b) {
      OwnersAreOutstanding(es, b, ids[0]);
      assert ids[0] in multiset(ids);
      assert (b, ids[0]) in Outstanding(es);
    }
    if id :| (b, id) in Outstanding(es) {
      OwnersAreOutstanding(es, b, id);
      assert id in multiset(ids);
    }
  }
}
