/** One VM's firewall policy, rendered from its group, and what the ordered rules mean for a packet. */
module VmFirewall {
  import opened Base
  import opened Slots

  datatype Protocol = Tcp | Udp | Icmp | Other

  datatype Packet = Packet(source: nat, dest: nat, protocol: Protocol, sport: nat, dport: nat)

  /** No port list means any port, as an omitted field does. */
  datatype Rule = Rule(
    inbound: bool, accept: bool, source: Option<Cidr>, dest: Option<Cidr>,
    protocol: Option<Protocol>, sport: Option<nat>, dports: seq<int>)

  datatype Entry = Entry(cidr: Cidr, nomatch: bool)

  datatype Options = Options(
    enable: bool, dhcp: bool, ipfilter: bool, macfilter: bool, ndp: bool, radv: bool, acceptIn: bool, acceptOut: bool)

  datatype Policy = Policy(options: Options, ipset: seq<Entry>, rules: seq<Rule>)

  datatype Input = Input(
    subnet: Cidr, gatewayIp: nat, accessIp: nat, ports: seq<int>, peers: seq<Cidr>, allowSameGroup: bool)

  // ---- canonical lists ---------------------------------------------------------------------------

  /** Distinguishes any two subnets that pass validation. */
  function CidrKey(c: Cidr): int { 64 * c.network + c.prefix }

  function Ports(s: seq<int>): seq<int> { SortBy(Identity, Deduplicate(s)) }

  function Peers(s: seq<Cidr>): seq<Cidr> { SortBy(CidrKey, Deduplicate(s)) }

  // ---- rendering -----------------------------------------------------------------------------------------

  predicate ValidCidr(c: Cidr) { 8 <= c.prefix <= 32 }

  predicate ValidInput(input: Input) {
    && ValidCidr(input.subnet)
    && input.gatewayIp != input.accessIp
    && input.ports != [] && (forall p :: p in input.ports ==> 1 <= p <= 65535)
    && (forall c :: c in input.peers ==> ValidCidr(c) && c != input.subnet)
  }

  function HostCidr(address: nat): Cidr { Cidr(address, 32) }

  const OPTIONS: Options := Options(true, true, true, true, false, false, false, true)

  /** The group's subnet, except the two addresses the ingress rules trust. */
  function IpSet(input: Input): seq<Entry> {
    [Entry(input.subnet, false), Entry(HostCidr(input.gatewayIp), true), Entry(HostCidr(input.accessIp), true)]
  }

  function Inbound(accept: bool, source: Cidr): Rule {
    Rule(true, accept, Some(source), None, None, None, [])
  }

  const OUTBOUND_DROP: Rule := Rule(false, false, None, None, None, None, [])

  function TrustedRules(input: Input): seq<Rule> {
    var gateway, access := HostCidr(input.gatewayIp), HostCidr(input.accessIp);
    [Inbound(true, access).(protocol := Some(Tcp), dports := Ports(input.ports)),
     Inbound(true, gateway).(protocol := Some(Icmp)),
     Inbound(true, access).(protocol := Some(Icmp))]
  }

  /** The two drops must stand above the subnet's accept: both trusted addresses lie inside the subnet. */
  function SameGroupRules(input: Input): seq<Rule> {
    if !input.allowSameGroup then []
    else
      var gateway, access := HostCidr(input.gatewayIp), HostCidr(input.accessIp);
      [Inbound(true, gateway).(protocol := Some(Udp), sport := Some(67), dports := [68]),
       Inbound(false, gateway), Inbound(false, access), Inbound(true, input.subnet)]
  }

  function PeerRules(peers: seq<Cidr>): seq<Rule> {
    seq(|peers|, k requires 0 <= k < |peers| => Inbound(true, peers[k]))
  }

  function EgressRules(input: Input): seq<Rule> {
    [OUTBOUND_DROP.(protocol := Some(Udp), dports := [68]),
     OUTBOUND_DROP.(protocol := Some(Udp), sport := Some(67)),
     OUTBOUND_DROP.(dest := Some(HostCidr(input.accessIp)))]
  }

  function Rules(input: Input): seq<Rule> {
    TrustedRules(input) + SameGroupRules(input) + PeerRules(Peers(input.peers)) + EgressRules(input)
  }

  function BuildVmFirewallPolicy(input: Input): Option<Policy> {
    if ValidInput(input) then Some(Policy(OPTIONS, IpSet(input), Rules(input))) else None
  }

  // ---- what a policy does with a packet --------------------------------------------------------------------

  ghost predicate Matches(r: Rule, inbound: bool, k: Packet) {
    && r.inbound == inbound
    && (r.source.Some? ==> Contains(r.source.value, k.source))
    && (r.dest.Some? ==> Contains(r.dest.value, k.dest))
    && (r.protocol.Some? ==> k.protocol == r.protocol.value)
    && (r.sport.Some? ==> k.sport == r.sport.value)
    && (r.dports != [] ==> k.dport in r.dports)
  }

  ghost function Decision(rules: seq<Rule>, inbound: bool, k: Packet): Option<bool> {
    if rules == [] then None
    else if Matches(rules[0], inbound, k) then Some(rules[0].accept)
    else Decision(rules[1..], inbound, k)
  }

  /** The hypervisor's own DHCP allowance is for clients: a request out and a reply in, ahead of the rules. */
  predicate ClientDhcp(inbound: bool, k: Packet) {
    k.protocol == Udp && if inbound then k.sport == 67 && k.dport == 68 else k.sport == 68 && k.dport == 67
  }

  /** Whether a packet that starts a connection passes in the given direction. */
  ghost predicate Passes(p: Policy, inbound: bool, k: Packet) {
    || !p.options.enable
    || (p.options.dhcp && ClientDhcp(inbound, k))
    || (match Decision(p.rules, inbound, k)
        case Some(accept) => accept
        case None => if inbound then p.options.acceptIn else p.options.acceptOut)
  }

  /** Source filter: the most specific entry that covers the address decides, and no entry means refusal. */
  ghost predicate MaySource(p: Policy, address: nat) {
    !p.options.enable || !p.options.ipfilter ||
    exists e :: e in p.ipset && !e.nomatch && Contains(e.cidr, address) &&
      forall f :: f in p.ipset && f.nomatch && Contains(f.cidr, address) ==> f.cidr.prefix < e.cidr.prefix
  }

  lemma HostOnly(address: nat, a: nat)
    ensures Contains(HostCidr(address), a) <==> a == address
  {
    assert Pow2(0) == 1;
  }

  lemma {:induction false} DecisionConcat(a: seq<Rule>, b: seq<Rule>, inbound: bool, k: Packet)
    ensures Decision(a + b, inbound, k) ==
      if Decision(a, inbound, k).Some? then Decision(a, inbound, k) else Decision(b, inbound, k)
  {
    if a == [] {
      assert a + b == b;
    } else {
      assert (a + b)[1..] == a[1..] + b;
      DecisionConcat(a[1..], b, inbound, k);
    }
  }

  lemma {:induction false} AllAlike(rules: seq<Rule>, accept: bool, inbound: bool, k: Packet)
    requires forall r :: r in rules ==> r.accept == accept
    ensures Decision(rules, inbound, k) ==
      if exists r :: r in rules && Matches(r, inbound, k) then Some(accept) else None
  {
    if rules != [] {
      AllAlike(rules[1..], accept, inbound, k);
      assert rules == [rules[0]] + rules[1..];
    }
  }

  // ---- one list at a time --------------------------------------------------------------------------------------

  ghost predicate Session(input: Input, k: Packet) {
    k.source == input.accessIp && k.protocol == Tcp && k.dport in input.ports
  }

  ghost predicate Diagnostic(input: Input, k: Packet) {
    (k.source == input.gatewayIp || k.source == input.accessIp) && k.protocol == Icmp
  }

  ghost predicate FromPeer(input: Input, k: Packet) {
    exists c :: c in input.peers && Contains(c, k.source)
  }

  lemma SamePorts(s: seq<int>, p: int)
    ensures p in Ports(s) <==> p in s
  {
    SortByKeeps(Identity, Deduplicate(s));
    DeduplicateKeeps(s);
  }

  lemma TrustedDecision(input: Input, k: Packet)
    requires ValidInput(input)
    ensures Decision(TrustedRules(input), true, k) ==
      if Session(input, k) || Diagnostic(input, k) then Some(true) else None
    ensures Decision(TrustedRules(input), false, k) == None
  {
    var rules := TrustedRules(input);
    HostOnly(input.gatewayIp, k.source);
    HostOnly(input.accessIp, k.source);
    SamePorts(input.ports, input.ports[0]);
    SamePorts(input.ports, k.dport);
    AllAlike(rules, true, true, k);
    AllAlike(rules, true, false, k);
    assert Matches(rules[0], true, k) <==> Session(input, k);
    assert Matches(rules[1], true, k) || Matches(rules[2], true, k) <==> Diagnostic(input, k);
    assert rules[0] in rules && rules[1] in rules && rules[2] in rules;
  }

  lemma DecisionCons(r: Rule, rest: seq<Rule>, inbound: bool, k: Packet)
    ensures Decision([r] + rest, inbound, k) ==
      if Matches(r, inbound, k) then Some(r.accept) else Decision(rest, inbound, k)
  {
    assert ([r] + rest)[1..] == rest;
  }

  lemma FourRules(rules: seq<Rule>, inbound: bool, k: Packet)
    requires |rules| == 4
    ensures Decision(rules, inbound, k) ==
      if Matches(rules[0], inbound, k) then Some(rules[0].accept)
      else if Matches(rules[1], inbound, k) then Some(rules[1].accept)
      else if Matches(rules[2], inbound, k) then Some(rules[2].accept)
      else if Matches(rules[3], inbound, k) then Some(rules[3].accept)
      else None
  {
    var tail := [rules[2]] + [rules[3]];
    DecisionCons(rules[2], [rules[3]], inbound, k);
    DecisionCons(rules[1], tail, inbound, k);
    DecisionCons(rules[0], [rules[1]] + tail, inbound, k);
    assert rules == [rules[0]] + ([rules[1]] + tail);
    assert [rules[3]][1..] == [];
  }

  lemma SameGroupDecision(input: Input, k: Packet)
    ensures Decision(SameGroupRules(input), true, k) ==
      if !input.allowSameGroup then None
      else if k.source == input.gatewayIp && ClientDhcp(true, k) then Some(true)
      else if k.source == input.gatewayIp || k.source == input.accessIp then Some(false)
      else if Contains(input.subnet, k.source) then Some(true)
      else None
    ensures Decision(SameGroupRules(input), false, k) == None
  {
    HostOnly(input.gatewayIp, k.source);
    HostOnly(input.accessIp, k.source);
    if input.allowSameGroup {
      var rules := SameGroupRules(input);
      FourRules(rules, true, k);
      FourRules(rules, false, k);
      assert Matches(rules[0], true, k) <==> k.source == input.gatewayIp && ClientDhcp(true, k);
    }
  }

  lemma PeerDecision(input: Input, k: Packet)
    ensures Decision(PeerRules(Peers(input.peers)), true, k) == if FromPeer(input, k) then Some(true) else None
    ensures Decision(PeerRules(Peers(input.peers)), false, k) == None
  {
    var peers := Peers(input.peers);
    var rules := PeerRules(peers);
    SortByKeeps(CidrKey, Deduplicate(input.peers));
    DeduplicateKeeps(input.peers);
    AllAlike(rules, true, true, k);
    AllAlike(rules, true, false, k);
    if FromPeer(input, k) {
      var c :| c in input.peers && Contains(c, k.source);
      assert c in peers;
      var j :| 0 <= j < |peers| && peers[j] == c;
      assert Matches(rules[j], true, k);
    }
  }

  ghost predicate Forbidden(input: Input, k: Packet) {
    (k.protocol == Udp && (k.dport == 68 || k.sport == 67)) || k.dest == input.accessIp
  }

  lemma EgressDecision(input: Input, k: Packet)
    ensures Decision(EgressRules(input), false, k) == if Forbidden(input, k) then Some(false) else None
    ensures Decision(EgressRules(input), true, k) == None
  {
    var rules := EgressRules(input);
    HostOnly(input.accessIp, k.dest);
    AllAlike(rules, false, false, k);
    AllAlike(rules, false, true, k);
    assert Matches(rules[0], false, k) <==> k.protocol == Udp && k.dport == 68;
    assert Matches(rules[1], false, k) <==> k.protocol == Udp && k.sport == 67;
    assert Matches(rules[2], false, k) <==> k.dest == input.accessIp;
    assert rules[0] in rules && rules[1] in rules && rules[2] in rules;
  }

  lemma RulesDecision(input: Input, inbound: bool, k: Packet)
    ensures Decision(Rules(input), inbound, k) ==
      var t, g := Decision(TrustedRules(input), inbound, k), Decision(SameGroupRules(input), inbound, k);
      var p := Decision(PeerRules(Peers(input.peers)), inbound, k);
      if t.Some? then t else if g.Some? then g else if p.Some? then p else Decision(EgressRules(input), inbound, k)
  {
    var trusted, same, peers := TrustedRules(input), SameGroupRules(input), PeerRules(Peers(input.peers));
    DecisionConcat(trusted + same + peers, EgressRules(input), inbound, k);
    DecisionConcat(trusted + same, peers, inbound, k);
    DecisionConcat(trusted, same, inbound, k);
  }

  // ---- main results ------------------------------------------------------------------------------------------

  /** A policy is refused only over a malformed prefix, one address for both appliances, a port list that is empty or
      out of range, or a peer that is malformed or the own subnet; the same-group flag has no part in it. */
  lemma BuiltExactly(input: Input)
    ensures BuildVmFirewallPolicy(input).Some? <==>
      && 8 <= input.subnet.prefix && input.subnet.prefix <= 32
      && input.gatewayIp != input.accessIp
      && |input.ports| > 0 && (forall p :: p in input.ports ==> 0 < p && p < 65536)
      && (forall c :: c in input.peers ==> 8 <= c.prefix && c.prefix <= 32)
      && input.subnet !in input.peers
  { }

  /** A VM may claim any address of its group's subnet but the Gateway's and Access's. */
  lemma SourceExactly(input: Input, address: nat)
    requires BuildVmFirewallPolicy(input).Some?
    ensures MaySource(BuildVmFirewallPolicy(input).value, address) <==>
      Contains(input.subnet, address) && address != input.gatewayIp && address != input.accessIp
  {
    var ipset := IpSet(input);
    HostOnly(input.gatewayIp, address);
    HostOnly(input.accessIp, address);
    assert ipset[0] in ipset && ipset[1] in ipset && ipset[2] in ipset;
  }

  /** Frames under another hardware address than the interface's own. */
  ghost predicate MayUseMac(p: Policy, own: string, used: string) {
    !p.options.enable || !p.options.macfilter || used == own
  }

  /** Neighbour discovery and router advertisements are what IPv6 needs to come up on a segment. */
  ghost predicate Ipv6ComesUp(p: Policy) { !p.options.enable || p.options.ndp || p.options.radv }

  /** Below IP: only the own hardware address, and no IPv6. */
  lemma LinkLayerExactly(input: Input, own: string, used: string)
    requires BuildVmFirewallPolicy(input).Some?
    ensures MayUseMac(BuildVmFirewallPolicy(input).value, own, used) <==> used == own
    ensures !Ipv6ComesUp(BuildVmFirewallPolicy(input).value)
  { }

  /** What passes out: a client's DHCP request, and anything that neither serves DHCP nor opens towards Access. */
  lemma EgressExactly(input: Input, k: Packet)
    requires BuildVmFirewallPolicy(input).Some?
    ensures Passes(BuildVmFirewallPolicy(input).value, false, k) <==> ClientDhcp(false, k) || !Forbidden(input, k)
  {
    RulesDecision(input, false, k);
    TrustedDecision(input, k);
    SameGroupDecision(input, k);
    PeerDecision(input, k);
    EgressDecision(input, k);
  }

  /** What passes in, source by source. */
  lemma IngressExactly(input: Input, k: Packet)
    requires BuildVmFirewallPolicy(input).Some?
    ensures Passes(BuildVmFirewallPolicy(input).value, true, k) <==>
      || ClientDhcp(true, k) || Session(input, k) || Diagnostic(input, k)
      || if input.allowSameGroup && (k.source == input.gatewayIp || k.source == input.accessIp) then false
         else (input.allowSameGroup && Contains(input.subnet, k.source)) || FromPeer(input, k)
  {
    RulesDecision(input, true, k);
    TrustedDecision(input, k);
    SameGroupDecision(input, k);
    PeerDecision(input, k);
    EgressDecision(input, k);
  }

  /** The policy depends on the sets of ports and peers, not on how they were listed. */
  lemma PolicyCanonical(a: Input, b: Input)
    requires BuildVmFirewallPolicy(a).Some? && BuildVmFirewallPolicy(b).Some?
    requires a.(ports := [], peers := []) == b.(ports := [], peers := [])
    requires forall p :: p in a.ports <==> p in b.ports
    requires forall c :: c in a.peers <==> c in b.peers
    ensures BuildVmFirewallPolicy(a) == BuildVmFirewallPolicy(b)
  {
    forall x: int ensures x in a.ports <==> x in b.ports { }
    SameCanonical<int>(Identity, a.ports, b.ports);
    SamePeerList(a.peers, b.peers);
    SameRules(a, b);
  }

  lemma SamePeerList(a: seq<Cidr>, b: seq<Cidr>)
    requires forall c :: c in a ==> ValidCidr(c)
    requires forall c :: c in a <==> c in b
    ensures Peers(a) == Peers(b)
  {
    SameCanonical(CidrKey, a, b);
  }

  lemma SameRules(a: Input, b: Input)
    requires a.(ports := [], peers := []) == b.(ports := [], peers := [])
    requires Ports(a.ports) == Ports(b.ports) && Peers(a.peers) == Peers(b.peers)
    ensures Rules(a) == Rules(b) && IpSet(a) == IpSet(b)
  { }

  lemma SameCanonical<T>(key: T -> int, a: seq<T>, b: seq<T>)
    requires forall x :: x in a <==> x in b
    requires forall x, y :: x in a && y in a && key(x) == key(y) ==> x == y
    ensures SortBy(key, Deduplicate(a)) == SortBy(key, Deduplicate(b))
  {
    var x, y := Deduplicate(a), Deduplicate(b);
    DeduplicateKeeps(a);
    DeduplicateKeeps(b);
    SortByKeeps(key, x);
    SortByKeeps(key, y);
    SameElements(x, y);
    KeysDistinctElements(key, x);
    KeysDistinctSame(key, SortBy(key, x), x);
    SortedUnique(key, SortBy(key, x), SortBy(key, y));
  }
}
