/** Expansion of outbound rules into a first-match filter chain (network/iptables/iptables.go). */
module IPTables {
  import opened Outcomes

  datatype Protocol = All | TCP | UDP | ICMP | Unknown(code: nat)

  type Addr = nat

  datatype IPRange = IPRange(start: Option<Addr>, end: Option<Addr>)

  datatype PortRange = PortRange(start: nat, end: nat)

  datatype ICMPControl = ICMPControl(kind: nat, code: Option<nat>)

  datatype NetOutRule = NetOutRule(
    protocol: Protocol, networks: seq<IPRange>, ports: seq<PortRange>, icmps: Option<ICMPControl>, log: bool)

  /** One network and one port range of a rule, or none when the rule lists none. */
  datatype SingleRule = SingleRule(
    protocol: Protocol, network: Option<IPRange>, ports: Option<PortRange>, icmps: Option<ICMPControl>, log: bool)

  // ----- the commands that are run

  datatype Destination = AddrRange(lo: Addr, hi: Addr) | OneAddr(addr: Addr)

  datatype PortMatch = Span(lo: nat, hi: nat) | OnePort(port: nat)

  datatype Target = Return | GotoLog

  /** An inserted filter rule: its matches and its target. */
  datatype Filter = Filter(
    protocol: string, destination: Option<Destination>, port: Option<PortMatch>, icmpType: Option<ICMPControl>,
    target: Target)

  datatype Error = PortsNotAllowed | InvalidProtocol | CommandFailed

  function ProtocolString(p: Protocol): (s: Option<string>)
  {
    match p
    case All => Some("all")
    case TCP => Some("tcp")
    case UDP => Some("udp")
    case ICMP => Some("icmp")
    case Unknown(_) => None
  }

  predicate AllowsPort(p: Protocol)
  {
    p == TCP || p == UDP
  }

  function DestinationFlag(network: Option<IPRange>): (d: Option<Destination>)
  {
    match network
    case None => None
    case Some(IPRange(Some(a), Some(b))) => Some(AddrRange(a, b))
    case Some(IPRange(Some(a), None)) => Some(OneAddr(a))
    case Some(IPRange(None, Some(b))) => Some(OneAddr(b))
    case Some(IPRange(None, None)) => None
  }

  function PortFlag(ports: Option<PortRange>): (p: Option<PortMatch>)
  {
    match ports
    case None => None
    case Some(PortRange(a, b)) => Some(if a != b then Span(a, b) else OnePort(a))
  }

  function Compile(r: SingleRule): (f: Option<Filter>)
  {
    match ProtocolString(r.protocol)
    case None => None
    case Some(p) =>
      Some(Filter(p, DestinationFlag(r.network), PortFlag(r.ports), r.icmps, if r.log then GotoLog else Return))
  }

  // ----- what a chain does to packets

  datatype Carried = CarriesTCP | CarriesUDP | CarriesICMP | CarriesOther

  function CarriedName(c: Carried): (s: string)
  {
    match c
    case CarriesTCP => "tcp"
    case CarriesUDP => "udp"
    case CarriesICMP => "icmp"
    case CarriesOther => "other"
  }

  datatype Packet = Packet(carried: Carried, dst: Addr, port: nat, icmpKind: nat, icmpCode: nat)

  predicate FilterMatches(f: Filter, p: Packet)
  {
    && (f.protocol == "all" || f.protocol == CarriedName(p.carried))
    && (match f.destination
        case None => true
        case Some(AddrRange(a, b)) => a <= p.dst <= b
        case Some(OneAddr(a)) => p.dst == a)
    && (match f.port
        case None => true
        case Some(Span(a, b)) => a <= p.port <= b
        case Some(OnePort(q)) => p.port == q)
    && (match f.icmpType
        case None => true
        case Some(c) => p.icmpKind == c.kind && (c.code.Some? ==> p.icmpCode == c.code.value))
  }

  /** The target of the first matching rule; None when no rule matches. */
  function Verdict(chain: seq<Filter>, p: Packet): (v: Option<Target>)
  {
    if chain == [] then None
    else if FilterMatches(chain[0], p) then Some(chain[0].target)
    else Verdict(chain[1..], p)
  }

  // ----- what a rule means

  predicate InNetwork(n: IPRange, a: Addr)
  {
    match (n.start, n.end)
    case (Some(lo), Some(hi)) => lo <= a <= hi
    case (Some(lo), None) => a == lo
    case (None, Some(hi)) => a == hi
    case (None, None) => true
  }

  predicate ProtocolMatches(protocol: Protocol, p: Packet)
  {
    match protocol
    case All => true
    case TCP => p.carried.CarriesTCP?
    case UDP => p.carried.CarriesUDP?
    case ICMP => p.carried.CarriesICMP?
    case Unknown(_) => false
  }

  predicate ICMPMatches(icmps: Option<ICMPControl>, p: Packet)
  {
    icmps.Some? ==> p.icmpKind == icmps.value.kind && (icmps.value.code.Some? ==> p.icmpCode == icmps.value.code.value)
  }

  /** A rule matches a packet of its protocol to one of its networks and one of its ports, where an empty
      list stands for all. */
  predicate RuleMatches(r: NetOutRule, p: Packet)
  {
    && ProtocolMatches(r.protocol, p) && ICMPMatches(r.icmps, p)
    && (r.networks == [] || exists n :: n in r.networks && InNetwork(n, p.dst))
    && (r.ports == [] || exists q :: q in r.ports && q.start <= p.port <= q.end)
  }

  /** What a single rule matches: its protocol, its network if it has one, and its ports if it has some. */
  predicate SingleRuleMatches(r: SingleRule, p: Packet)
  {
    && ProtocolMatches(r.protocol, p) && ICMPMatches(r.icmps, p)
    && (r.network.Some? ==> InNetwork(r.network.value, p.dst))
    && (r.ports.Some? ==> r.ports.value.start <= p.port <= r.ports.value.end)
  }

  function RuleTarget(r: NetOutRule): (t: Target)
  {
    if r.log then GotoLog else Return
  }

  predicate ValidRule(r: NetOutRule)
  {
    !r.protocol.Unknown? && (r.ports == [] || r.protocol == TCP || r.protocol == UDP)
  }

  // ----- the expansion

  function Choices<T>(s: seq<T>): (c: seq<Option<T>>)
    ensures |c| == if s == [] then 1 else |s|
  {
    if s == [] then [None] else seq(|s|, i requires 0 <= i < |s| => Some(s[i]))
  }

  function Single(r: NetOutRule, network: Option<IPRange>, ports: Option<PortRange>): (s: SingleRule)
  {
    SingleRule(r.protocol, network, ports, r.icmps, r.log)
  }

  /** A single rule that differs from r's only in a network or ports r itself lists. */
  predicate OfRule(r: NetOutRule, s: SingleRule)
  {
    && s == Single(r, s.network, s.ports)
    && (s.ports.Some? ==> r.ports != []) && (s.network.Some? ==> r.networks != [])
  }

  function CompiledSingle(r: NetOutRule, network: Option<IPRange>, ports: Option<PortRange>): (f: Filter)
    requires !r.protocol.Unknown?
    ensures f.target == RuleTarget(r)
  {
    Compile(Single(r, network, ports)).value
  }

  /** The filters for one network, in the order in which they are inserted. */
  function ForNetwork(r: NetOutRule, network: Option<IPRange>): (fs: seq<Filter>)
    requires !r.protocol.Unknown?
    ensures |fs| == |Choices(r.ports)|
  {
    var ps := Choices(r.ports);
    seq(|ps|, i requires 0 <= i < |ps| => CompiledSingle(r, network, ps[i]))
  }

  /** The filters for the first n networks. */
  function ForNetworks(r: NetOutRule, n: nat): (fs: seq<Filter>)
    requires !r.protocol.Unknown? && n <= |Choices(r.networks)|
  {
    if n == 0 then [] else ForNetworks(r, n - 1) + ForNetwork(r, Choices(r.networks)[n - 1])
  }

  function Expansion(r: NetOutRule): (fs: seq<Filter>)
    requires !r.protocol.Unknown?
  {
    ForNetworks(r, |Choices(r.networks)|)
  }

  /** Inserting filters one after the other at the head of a chain. */
  function Prepended(chain: seq<Filter>, fs: seq<Filter>): (c: seq<Filter>)
  {
    if fs == [] then chain else [fs[|fs| - 1]] + Prepended(chain, fs[..|fs| - 1])
  }

  /** The chain after the first n commands of a rule. */
  predicate Inserted(chain: seq<Filter>, after: seq<Filter>, r: NetOutRule, n: nat)
    requires !r.protocol.Unknown?
  {
    n <= |Expansion(r)| && after == Prepended(chain, Expansion(r)[..n])
  }

  class Chain {
    var rules: seq<Filter>

    /** `runs(i)` tells whether the i-th command succeeds, `count` how many did. */
    method PrependFilterRule(r: NetOutRule, runs: nat -> bool) returns (e: Option<Error>, ghost count: nat)
      modifies this
      ensures r.ports != [] && r.protocol != TCP && r.protocol != UDP ==>
        e == Some(PortsNotAllowed) && rules == old(rules)
      ensures r.ports == [] && r.protocol.Unknown? ==> e == Some(InvalidProtocol) && rules == old(rules)
      ensures ValidRule(r) ==> Inserted(old(rules), rules, r, count) && forall i: nat | i < count :: runs(i)
      ensures ValidRule(r) && count == |Expansion(r)| ==> e == None
      ensures ValidRule(r) && count < |Expansion(r)| ==> e == Some(CommandFailed) && !runs(count)
    {
      hide OfRule, Choices, ForNetworks, Expansion, Inserted;
      count := 0;
      if |r.ports| > 0 && !AllowsPort(r.protocol) {
        return Some(PortsNotAllowed), 0;
      }
      var single := SingleRule(r.protocol, None, None, r.icmps, r.log);
      var run: nat := 0;
      var j := 0;
      Start(r, rules);
      while j < |r.networks| || j == 0
        invariant 0 <= j <= |Choices(r.networks)| && OfRule(r, single)
        invariant r.protocol.Unknown? ==> j == 0 && rules == old(rules)
        invariant !r.protocol.Unknown? ==> run == |ForNetworks(r, j)| && Inserted(old(rules), rules, r, run)
        invariant !r.protocol.Unknown? ==> forall i: nat | i < run :: runs(i)
        decreases |Choices(r.networks)| - j
      {
        ghost var before, first := rules, run;
        e, single, run := PrependForPorts(r, j, single, runs, run);
        if !r.protocol.Unknown? {
          InsertedMore(old(rules), before, rules, r, j, run - first);
        }
        if e.Some? {
          return e, run;
        }
        j := j + 1;
      }
      return None, run;
    }

    /** The inner loop: one filter for each port range of the rule. */
    method PrependForPorts(r: NetOutRule, j: nat, single0: SingleRule, runs: nat -> bool, count0: nat)
      returns (e: Option<Error>, single: SingleRule, count: nat)
      requires j < |Choices(r.networks)| && OfRule(r, single0)
      modifies this
      ensures OfRule(r, single)
      ensures r.protocol.Unknown? ==> e == Some(InvalidProtocol) && rules == old(rules)
      ensures !r.protocol.Unknown? ==> count0 <= count <= count0 + |Choices(r.ports)|
      ensures !r.protocol.Unknown? ==>
        rules == Prepended(old(rules), ForNetwork(r, Choices(r.networks)[j])[..count - count0])
      ensures !r.protocol.Unknown? ==> forall i: nat | count0 <= i < count :: runs(i)
      ensures !r.protocol.Unknown? && count == count0 + |Choices(r.ports)| ==> e == None
      ensures !r.protocol.Unknown? && count < count0 + |Choices(r.ports)| ==> e == Some(CommandFailed) && !runs(count)
    {
      hide *;
      ghost var network := Choices(r.networks)[j];
      single, count := single0, count0;
      var i := 0;
      PrependNone(old(rules));
      while i < |r.ports| || i == 0
        invariant 0 <= i <= |Choices(r.ports)| && count == count0 + i && OfRule(r, single)
        invariant r.protocol.Unknown? ==> i == 0 && rules == old(rules)
        invariant !r.protocol.Unknown? ==> rules == Prepended(old(rules), ForNetwork(r, network)[..i])
        invariant !r.protocol.Unknown? ==> forall k: nat | count0 <= k < count :: runs(k)
        decreases |Choices(r.ports)| - i
      {
        Chosen(r, single, j, i);
        if |r.ports| > 0 {
          single := single.(ports := Some(r.ports[i]));
        }
        if |r.networks| > 0 {
          single := single.(network := Some(r.networks[j]));
        }
        CompileIff(single);
        e := PrependSingleRule(single, runs(count));
        if e.Some? {
          return;
        }
        PrependNext(old(rules), ForNetwork(r, network), i);
        count := count + 1;
        i := i + 1;
      }
      e := None;
    }

    method PrependSingleRule(r: SingleRule, run: bool) returns (e: Option<Error>)
      modifies this
      ensures r.protocol.Unknown? ==> e == Some(InvalidProtocol) && rules == old(rules)
      ensures !r.protocol.Unknown? && !run ==> e == Some(CommandFailed) && rules == old(rules)
      ensures !r.protocol.Unknown? && run ==> e == None && rules == [Compile(r).value] + old(rules)
      ensures e == None ==> rules[0].target == if r.log then GotoLog else Return
      ensures e == None ==> forall p :: FilterMatches(rules[0], p) <==> SingleRuleMatches(r, p)
    {
      hide FilterMatches, SingleRuleMatches;
      var f := Compile(r);
      CompileIff(r);
      if f.Some? {
        forall p
          ensures FilterMatches(f.value, p) <==> SingleRuleMatches(r, p)
        {
          CompiledMatches(r, p);
        }
      }
      if f.None? {
        return Some(InvalidProtocol);
      }
      if !run {
        return Some(CommandFailed);
      }
      rules := [f.value] + rules;
      return None;
    }
  }

  lemma CompileIff(r: SingleRule)
    ensures Compile(r).None? <==> r.protocol.Unknown?
  {
  }

  /** A rule is compiled to the filter of its protocol's name. */
  lemma CompiledProtocol(r: SingleRule)
    requires !r.protocol.Unknown?
    ensures Compile(r).Some?
    ensures Compile(r).value.protocol in {"all", "tcp", "udp", "icmp"}
    ensures Compile(r).value.protocol == "tcp" <==> r.protocol == TCP
    ensures Compile(r).value.protocol == "udp" <==> r.protocol == UDP
    ensures Compile(r).value.protocol == "icmp" <==> r.protocol == ICMP
  {
    assert "tcp"[0] == 't' && "udp"[0] == 'u' && "icmp"[0] == 'i' && "all"[0] == 'a';
  }

  /** The filter of a single rule matches the packets that rule is meant for. */
  lemma CompiledMatches(r: SingleRule, p: Packet)
    requires Compile(r).Some?
    ensures FilterMatches(Compile(r).value, p) <==> SingleRuleMatches(r, p)
  {
    CompileIff(r);
    CompiledProtocol(r);
    CarriedNames(p.carried);
    hide ProtocolString, CarriedName;
  }

  lemma CarriedNames(c: Carried)
    ensures CarriedName(c) != "all"
    ensures CarriedName(c) == "tcp" <==> c.CarriesTCP?
    ensures CarriedName(c) == "udp" <==> c.CarriesUDP?
    ensures CarriedName(c) == "icmp" <==> c.CarriesICMP?
  {
    assert "tcp"[0] == 't' && "udp"[0] == 'u' && "icmp"[0] == 'i' && "all"[0] == 'a' && "other"[0] == 'o';
  }

  lemma {:induction false} PrependedTwice(chain: seq<Filter>, a: seq<Filter>, b: seq<Filter>)
    ensures Prepended(Prepended(chain, a), b) == Prepended(chain, a + b)
  {
    if b == [] {
      assert a + b == a;
    } else {
      PrependedTwice(chain, a, b[..|b| - 1]);
      assert (a + b)[..|a + b| - 1] == a + b[..|b| - 1];
    }
  }

  lemma PrependNone(chain: seq<Filter>)
    ensures Prepended(chain, []) == chain
  {
  }

  lemma PrependNext(chain: seq<Filter>, fs: seq<Filter>, i: nat)
    requires i < |fs|
    ensures Prepended(chain, fs[..i + 1]) == [fs[i]] + Prepended(chain, fs[..i])
  {
    assert fs[..i + 1][..i] == fs[..i];
  }

  lemma Start(r: NetOutRule, chain: seq<Filter>)
    ensures OfRule(r, SingleRule(r.protocol, None, None, r.icmps, r.log))
    ensures |Choices(r.networks)| == if r.networks == [] then 1 else |r.networks|
    ensures !r.protocol.Unknown? ==> |ForNetworks(r, 0)| == 0 && Inserted(chain, chain, r, 0)
    ensures !r.protocol.Unknown? ==> ForNetworks(r, |Choices(r.networks)|) == Expansion(r)
  {
  }

  /** The rule kept across iterations, with its ports and network set for this one, compiles to the next filter. */
  lemma Chosen(r: NetOutRule, single: SingleRule, j: nat, i: nat)
    requires OfRule(r, single) && j < |Choices(r.networks)| && i < |Choices(r.ports)|
    ensures r.ports != [] ==> i < |r.ports|
    ensures r.networks != [] ==> j < |r.networks|
    ensures
      var withPorts := if r.ports != [] then single.(ports := Some(r.ports[i])) else single;
      var chosen := if r.networks != [] then withPorts.(network := Some(r.networks[j])) else withPorts;
      && OfRule(r, chosen) && chosen.protocol == r.protocol
      && (!r.protocol.Unknown? ==> Compile(chosen) == Some(ForNetwork(r, Choices(r.networks)[j])[i]))
  {
    hide Compile;
    var withPorts := if r.ports != [] then single.(ports := Some(r.ports[i])) else single;
    var chosen := if r.networks != [] then withPorts.(network := Some(r.networks[j])) else withPorts;
    assert chosen == Single(r, Choices(r.networks)[j], Choices(r.ports)[i]);
    CompileIff(chosen);
  }

  lemma InsertedMore(chain: seq<Filter>, before: seq<Filter>, after: seq<Filter>, r: NetOutRule, j: nat, i: nat)
    requires !r.protocol.Unknown? && j < |Choices(r.networks)| && i <= |Choices(r.ports)|
    requires Inserted(chain, before, r, |ForNetworks(r, j)|)
    requires after == Prepended(before, ForNetwork(r, Choices(r.networks)[j])[..i])
    ensures Inserted(chain, after, r, |ForNetworks(r, j)| + i)
    ensures |ForNetworks(r, j + 1)| == |ForNetworks(r, j)| + |Choices(r.ports)| <= |Expansion(r)|
  {
    hide Expansion, Prepended, ForNetwork;
    ExpansionPrefix(r, j, i);
    ExpansionPrefix(r, j, 0);
    ExpansionPrefix(r, j, |Choices(r.ports)|);
    assert ForNetworks(r, j) + ForNetwork(r, Choices(r.networks)[j])[..0] == ForNetworks(r, j);
    PrependedTwice(chain, ForNetworks(r, j), ForNetwork(r, Choices(r.networks)[j])[..i]);
  }

  /** What has been inserted after i ports of network j is a prefix of the expansion. */
  lemma ExpansionPrefix(r: NetOutRule, j: nat, i: nat)
    requires !r.protocol.Unknown? && j < |Choices(r.networks)| && i <= |Choices(r.ports)|
    ensures var n := |ForNetworks(r, j)| + i;
      n <= |Expansion(r)| && Expansion(r)[..n] == ForNetworks(r, j) + ForNetwork(r, Choices(r.networks)[j])[..i]
  {
    NetworksPrefix(r, j + 1, |Choices(r.networks)|);
    var fs := ForNetwork(r, Choices(r.networks)[j]);
    assert ForNetworks(r, j + 1) == ForNetworks(r, j) + fs;
    hide *;
    PrefixOfSum(Expansion(r), ForNetworks(r, j), fs, i);
  }

  lemma PrefixOfSum(whole: seq<Filter>, a: seq<Filter>, b: seq<Filter>, i: nat)
    requires a + b <= whole && i <= |b|
    ensures |a| + i <= |whole| && whole[..|a| + i] == a + b[..i]
  {
    assert whole[..|a| + i] == (a + b)[..|a| + i];
  }

  lemma {:induction false} NetworksPrefix(r: NetOutRule, j: nat, n: nat)
    requires !r.protocol.Unknown? && j <= n <= |Choices(r.networks)|
    ensures ForNetworks(r, j) <= ForNetworks(r, n)
  {
    if j < n {
      NetworksPrefix(r, j, n - 1);
    }
  }

  // ----- the expansion means the rule

  lemma {:induction false} PrependedVerdict(chain: seq<Filter>, fs: seq<Filter>, t: Target, p: Packet)
    requires forall f | f in fs :: f.target == t
    ensures Verdict(Prepended(chain, fs), p) ==
      if exists f :: f in fs && FilterMatches(f, p) then Some(t) else Verdict(chain, p)
  {
    hide FilterMatches;
    if fs != [] {
      var last, rest := fs[|fs| - 1], fs[..|fs| - 1];
      PrependedVerdict(chain, rest, t, p);
      assert fs == rest + [last];
      assert Prepended(chain, fs)[1..] == Prepended(chain, rest);
      assert (exists f :: f in fs && FilterMatches(f, p)) <==>
        FilterMatches(last, p) || exists f :: f in rest && FilterMatches(f, p);
    }
  }

  lemma SingleMatches(r: NetOutRule, network: Option<IPRange>, ports: Option<PortRange>, p: Packet)
    requires !r.protocol.Unknown?
    ensures FilterMatches(CompiledSingle(r, network, ports), p) <==>
      SingleRuleMatches(Single(r, network, ports), p)
  {
    hide FilterMatches, SingleRuleMatches;
    CompileIff(Single(r, network, ports));
    CompiledMatches(Single(r, network, ports), p);
  }

  lemma {:induction false} InNetworks(r: NetOutRule, n: nat, f: Filter)
    requires !r.protocol.Unknown? && n <= |Choices(r.networks)|
    ensures f in ForNetworks(r, n) <==> exists j: nat :: j < n && f in ForNetwork(r, Choices(r.networks)[j])
  {
    if n > 0 {
      InNetworks(r, n - 1, f);
      if f in ForNetwork(r, Choices(r.networks)[n - 1]) {
        assert n - 1 < n && f in ForNetwork(r, Choices(r.networks)[n - 1]);
      }
    }
  }

  /** Some filter of the expansion matches a packet exactly when the rule does. */
  lemma ExpansionMatches(r: NetOutRule, p: Packet)
    requires !r.protocol.Unknown?
    ensures (exists f :: f in Expansion(r) && FilterMatches(f, p)) <==> RuleMatches(r, p)
    ensures forall f | f in Expansion(r) :: f.target == RuleTarget(r)
  {
    hide FilterMatches;
    var ns, ps := Choices(r.networks), Choices(r.ports);
    forall f | f in Expansion(r)
      ensures f.target == RuleTarget(r) && (FilterMatches(f, p) ==> RuleMatches(r, p))
    {
      InNetworks(r, |ns|, f);
      var j: nat :| j < |ns| && f in ForNetwork(r, ns[j]);
      var i :| 0 <= i < |ps| && f == CompiledSingle(r, ns[j], ps[i]);
      SingleMatches(r, ns[j], ps[i], p);
      if FilterMatches(f, p) {
        assert r.networks != [] ==> r.networks[j] in r.networks && InNetwork(r.networks[j], p.dst);
        assert r.ports != [] ==> r.ports[i] in r.ports && r.ports[i].start <= p.port <= r.ports[i].end;
      }
    }
    if RuleMatches(r, p) {
      var j, i := 0, 0;
      if r.networks != [] {
        var n :| n in r.networks && InNetwork(n, p.dst);
        j :| 0 <= j < |r.networks| && r.networks[j] == n;
      }
      if r.ports != [] {
        var q :| q in r.ports && q.start <= p.port <= q.end;
        i :| 0 <= i < |r.ports| && r.ports[i] == q;
      }
      SingleMatches(r, ns[j], ps[i], p);
      var f := CompiledSingle(r, ns[j], ps[i]);
      assert ForNetwork(r, ns[j])[i] == f;
      assert f in ForNetwork(r, ns[j]);
      InNetworks(r, |ns|, f);
    }
  }

  /** After a successful call a packet the rule matches gets the rule's target, and any other packet the verdict
      it had before. */
  lemma CallVerdict(chain: seq<Filter>, r: NetOutRule, p: Packet)
    requires ValidRule(r)
    ensures Verdict(Prepended(chain, Expansion(r)), p) ==
      if RuleMatches(r, p) then Some(RuleTarget(r)) else Verdict(chain, p)
  {
    hide RuleMatches, FilterMatches, Expansion;
    ExpansionMatches(r, p);
    PrependedVerdict(chain, Expansion(r), RuleTarget(r), p);
  }

  /** A call that fails half-way changes the verdict only of packets its rule matches, and only to its target. */
  lemma FailedCallVerdict(chain: seq<Filter>, r: NetOutRule, n: nat, p: Packet)
    requires ValidRule(r) && n <= |Expansion(r)|
    ensures var v := Verdict(Prepended(chain, Expansion(r)[..n]), p);
      v == Verdict(chain, p) || (RuleMatches(r, p) && v == Some(RuleTarget(r)))
  {
    hide RuleMatches, FilterMatches, Expansion;
    ExpansionMatches(r, p);
    PrependedVerdict(chain, Expansion(r)[..n], RuleTarget(r), p);
  }

  function AfterCalls(chain: seq<Filter>, rs: seq<NetOutRule>): (c: seq<Filter>)
    requires forall r | r in rs :: ValidRule(r)
  {
    if rs == [] then chain
    else
      var k := |rs| - 1;
      assert rs[k] in rs && ValidRule(rs[k]);
      Prepended(AfterCalls(chain, rs[..k]), Expansion(rs[k]))
  }

  /** The target of the latest rule that matches. */
  function LatestMatch(rs: seq<NetOutRule>, p: Packet, otherwise: Option<Target>): (v: Option<Target>)
  {
    if rs == [] then otherwise
    else if RuleMatches(rs[|rs| - 1], p) then Some(RuleTarget(rs[|rs| - 1]))
    else LatestMatch(rs[..|rs| - 1], p, otherwise)
  }

  /** Over every run of successful calls each packet gets the target of the latest rule it matches, or the
      old chain's verdict if it matches none. */
  lemma {:induction false} LatestRuleWins(chain: seq<Filter>, rs: seq<NetOutRule>, p: Packet)
    requires (forall r | r in rs :: ValidRule(r))
    ensures Verdict(AfterCalls(chain, rs), p) == LatestMatch(rs, p, Verdict(chain, p))
  {
    hide RuleMatches, Expansion, Verdict;
    if rs != [] {
      var k := |rs| - 1;
      LatestRuleWins(chain, rs[..k], p);
      CallVerdict(AfterCalls(chain, rs[..k]), rs[k], p);
    }
  }
}
