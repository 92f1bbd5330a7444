/** The Gateway's packet filter: three first-match chains over the plan's interface sets. */
module Nftables {
  import opened Base
  import opened Decimal
  import opened Slots
  import opened GatewayPlan
  import GatewayPaths

  datatype Track = New | Reply | Invalid
  datatype Protocol = Tcp | Udp | Icmp | Other
  datatype Action = Accept | Drop | Return | Redirect(port: nat)

  datatype Packet = Packet(
    iif: string, oif: string, source: nat, dest: nat, protocol: Protocol,
    sport: nat, dport: nat, icmpType: string, track: Track)

  datatype Face = AnyFace | Lab | Named(name: string)
  datatype Target = AnyTarget | OwnAddress | LabSubnets | Private | Host(address: nat)

  datatype Rule = Rule(
    track: Option<Track>, from: Face, to: Face, paired: bool, sources: Option<seq<Cidr>>, target: Target,
    protocol: Option<Protocol>, sport: Option<nat>, dports: Option<set<nat>>, icmpTypes: Option<set<string>>,
    action: Action)

  const ANY: Rule := Rule(None, AnyFace, AnyFace, false, None, AnyTarget, None, None, None, None, Drop)
  const LAB: Rule := ANY.(from := Lab)
  const ICMP_TYPES: set<string> := {"echo-request", "destination-unreachable", "time-exceeded", "parameter-problem"}
  const BROADCAST: nat := 0xffff_ffff

  const PRIVATE: seq<Cidr> :=
    [Cidr(0, 8), Cidr(0x0a00_0000, 8), Cidr(0x6440_0000, 10), Cidr(0x7f00_0000, 8), Cidr(0xa9fe_0000, 16),
     Cidr(0xac10_0000, 12), Cidr(0xc0a8_0000, 16), Cidr(0xe000_0000, 4), Cidr(0xf000_0000, 4)]

  datatype Proxy = Proxy(http: nat, https: nat)

  // ---- the rendered chains -------------------------------------------------------------------------

  function UdpTo(r: Rule, ports: set<nat>): Rule { r.(protocol := Some(Udp), dports := Some(ports)) }
  function TcpTo(r: Rule, ports: set<nat>): Rule { r.(protocol := Some(Tcp), dports := Some(ports)) }

  function Prerouting(p: Plan, x: Proxy): seq<Rule> {
    if p.interfaces == [] then []
    else
      [LAB.(target := LabSubnets, action := Return),
       LAB.(target := Private, action := Return),
       TcpTo(LAB, {80}).(action := Redirect(x.http)),
       TcpTo(LAB, {443}).(action := Redirect(x.https))]
  }

  const STATES: seq<Rule> := [ANY.(track := Some(Reply), action := Accept), ANY.(track := Some(Invalid))]

  function Services(p: Plan, sources: seq<Cidr>): seq<Rule> {
    [ANY.(from := Named("lo"), action := Accept),
     UdpTo(ANY, {68}).(from := Named(p.uplink), sport := Some(67), action := Accept),
     TcpTo(ANY, {22}).(from := Named(p.management), sources := Some(sources), action := Accept),
     ANY.(from := Named(p.management), sources := Some(sources), icmpTypes := Some({"echo-request"}), action := Accept)]
  }

  /** Rules every Gateway has, whether or not it serves a group. */
  function InputBase(p: Plan, sources: seq<Cidr>): seq<Rule> { STATES + Services(p, sources) }

  function InputLab(p: Plan, x: Proxy): seq<Rule> {
    if p.interfaces == [] then []
    else
      var own := ANY.(target := OwnAddress, action := Accept);
      [UdpTo(LAB, {67}).(target := Host(BROADCAST), action := Accept),
       UdpTo(own, {67}), UdpTo(own, {53}), TcpTo(own, {53}), TcpTo(own, {x.http, x.https}),
       own.(icmpTypes := Some(ICMP_TYPES))]
  }

  function Input(p: Plan, x: Proxy, sources: seq<Cidr>): seq<Rule> {
    InputBase(p, sources) + InputLab(p, x)
  }

  /** Lab to lab is settled against the current peerings, before connection tracking is consulted. */
  function LabToLab(p: Plan): seq<Rule> {
    if p.interfaces == [] then []
    else
      (if p.edges == [] then [] else [LAB.(to := Lab, paired := true, action := Accept)]) + [LAB.(to := Lab)]
  }

  function Denials(p: Plan): seq<Rule> {
    if p.interfaces == [] then []
    else
      var out := LAB.(to := Named(p.uplink));
      [UdpTo(out, {443}), TcpTo(out, {80, 443}), UdpTo(out, {53}), TcpTo(out, {53, 853}), out, LAB]
  }

  function Forward(p: Plan): seq<Rule> {
    [ANY.(track := Some(Invalid))] + LabToLab(p) + [ANY.(track := Some(Reply), action := Accept)] + Denials(p)
  }

  // ---- what a chain does with a packet -----------------------------------------------------------------

  ghost predicate LabFace(p: Plan, name: string) {
    exists i :: i in p.interfaces && i.name == name
  }

  ghost predicate InFace(f: Face, p: Plan, name: string) {
    match f
    case AnyFace => true
    case Lab => LabFace(p, name)
    case Named(n) => name == n
  }

  ghost predicate InTarget(t: Target, p: Plan, k: Packet) {
    match t
    case AnyTarget => true
    case OwnAddress => exists i :: i in p.interfaces && i.name == k.iif && i.gatewayIp == k.dest
    case LabSubnets => exists i :: i in p.interfaces && Contains(i.subnet, k.dest)
    case Private => exists c :: c in PRIVATE && Contains(c, k.dest)
    case Host(a) => k.dest == a
  }

  ghost predicate AllowedPair(p: Plan, k: Packet) {
    exists e :: e in p.edges && e.fromName == k.iif && e.toName == k.oif
  }

  ghost predicate Matches(r: Rule, p: Plan, k: Packet) {
    && (r.track.Some? ==> k.track == r.track.value)
    && InFace(r.from, p, k.iif) && InFace(r.to, p, k.oif)
    && (r.paired ==> AllowedPair(p, k))
    && (r.sources.Some? ==> exists c :: c in r.sources.value && Contains(c, k.source))
    && InTarget(r.target, p, k)
    && (r.protocol.Some? ==> k.protocol == r.protocol.value)
    && (r.sport.Some? ==> k.sport == r.sport.value)
    && (r.dports.Some? ==> k.dport in r.dports.value)
    && (r.icmpTypes.Some? ==> k.protocol == Icmp && k.icmpType in r.icmpTypes.value)
  }

  ghost function Verdict(rules: seq<Rule>, p: Plan, k: Packet): Option<Action> {
    if rules == [] then None
    else if Matches(rules[0], p, k) then Some(rules[0].action)
    else Verdict(rules[1..], p, k)
  }

  /** The filter chains drop what no rule settles. */
  ghost predicate Forwarded(p: Plan, k: Packet) {
    Verdict(Forward(p), p, k) == Some(Accept)
  }

  ghost predicate Admitted(p: Plan, x: Proxy, sources: seq<Cidr>, k: Packet) {
    Verdict(Input(p, x, sources), p, k) == Some(Accept)
  }

  lemma {:induction false} VerdictConcat(a: seq<Rule>, b: seq<Rule>, p: Plan, k: Packet)
    ensures Verdict(a + b, p, k) == if Verdict(a, p, k).Some? then Verdict(a, p, k) else Verdict(b, p, k)
  {
    if a == [] {
      assert a + b == b;
    } else {
      assert (a + b)[1..] == a[1..] + b;
      VerdictConcat(a[1..], b, p, k);
    }
  }

  lemma VerdictOne(r: Rule, p: Plan, k: Packet)
    ensures Verdict([r], p, k) == if Matches(r, p, k) then Some(r.action) else None
  { }

  lemma {:induction false} OnlyAction(rules: seq<Rule>, action: Action, p: Plan, k: Packet)
    requires forall r :: r in rules ==> r.action == action
    ensures Verdict(rules, p, k) == if exists r :: r in rules && Matches(r, p, k) then Some(action) else None
  {
    if rules != [] {
      OnlyAction(rules[1..], action, p, k);
      assert rules == [rules[0]] + rules[1..];
    }
  }

  // ---- interfaces ------------------------------------------------------------------------------------------

  lemma LabNames(p: Plan, c: Config, i: Interface)
    requires ValidPlan(p, c) && i in p.interfaces
    ensures i.name != p.uplink && i.name != p.management && i.name != "lo"
    ensures forall j :: j in p.interfaces && j.name == i.name && i.vlan >= 0 && j.vlan >= 0 ==> j == i
  {
    assert i.name[|p.trunk|] == '.';
    assert '.' in i.name;
    assert '.' !in p.uplink && '.' !in p.management;
    forall j | j in p.interfaces && j.name == i.name && i.vlan >= 0 && j.vlan >= 0 ensures j == i {
      InterfaceNameInjective(p.trunk, i.vlan, j.vlan);
      KeysDistinctElements(VlanKey, p.interfaces);
      assert VlanKey(i) == VlanKey(j);
    }
  }

  // ---- main results -------------------------------------------------------------------------------------------

  lemma LabToLabVerdict(p: Plan, k: Packet)
    requires AllowedPair(p, k) ==> LabFace(p, k.iif) && LabFace(p, k.oif)
    ensures Verdict(LabToLab(p), p, k) ==
      if LabFace(p, k.iif) && LabFace(p, k.oif) then Some(if AllowedPair(p, k) then Accept else Drop) else None
  {
    if p.interfaces != [] {
      var accept := if p.edges == [] then [] else [LAB.(to := Lab, paired := true, action := Accept)];
      VerdictConcat(accept, [LAB.(to := Lab)], p, k);
      VerdictOne(LAB.(to := Lab), p, k);
      if p.edges != [] {
        VerdictOne(LAB.(to := Lab, paired := true, action := Accept), p, k);
      }
    }
  }

  lemma EdgeFaces(p: Plan, c: Config, k: Packet)
    requires ValidPlan(p, c) && AllowedPair(p, k)
    ensures LabFace(p, k.iif) && LabFace(p, k.oif)
  {
    GroupMapLists(p.interfaces);
    var e :| e in p.edges && e.fromName == k.iif && e.toName == k.oif;
    var peerings :| EdgesOf(p.edges, peerings, GroupMap(p.interfaces));
  }

  /** The forward chain accepts exactly: between lab interfaces the pairs peered now, whatever connection tracking
      remembers; elsewhere replies only. Nothing a VM opens leaves towards the uplink or management. */
  lemma ForwardExactly(p: Plan, c: Config, k: Packet)
    requires ValidPlan(p, c)
    ensures Forwarded(p, k) <==>
      && k.track != Invalid
      && if LabFace(p, k.iif) && LabFace(p, k.oif) then AllowedPair(p, k) else k.track == Reply
  {
    if AllowedPair(p, k) { EdgeFaces(p, c, k); }
    var invalid, reply := ANY.(track := Some(Invalid)), ANY.(track := Some(Reply), action := Accept);
    VerdictConcat([invalid] + LabToLab(p) + [reply], Denials(p), p, k);
    VerdictConcat([invalid] + LabToLab(p), [reply], p, k);
    VerdictConcat([invalid], LabToLab(p), p, k);
    VerdictOne(invalid, p, k);
    VerdictOne(reply, p, k);
    LabToLabVerdict(p, k);
    OnlyAction(Denials(p), Drop, p, k);
  }

  lemma EdgeEnds(p: Plan, c: Config, i: Interface, j: Interface, x: Interface, y: Interface)
    requires ValidPlan(p, c) && c.first >= 0
    requires i in p.interfaces && j in p.interfaces && x in p.interfaces && y in p.interfaces
    requires EdgeOf(x, y).fromName == i.name && EdgeOf(x, y).toName == j.name
    ensures x == i && y == j
  {
    LabNames(p, c, i);
    LabNames(p, c, j);
  }

  lemma PairIsPeering(p: Plan, input: PlanInput, c: Config, i: Interface, j: Interface, k: Packet)
    requires ValidPlan(p, c) && EdgesOf(p.edges, input.peerings, GroupMap(p.interfaces)) && c.first >= 0
    requires i in p.interfaces && j in p.interfaces && k.iif == i.name && k.oif == j.name
    ensures AllowedPair(p, k) <==> Peered(input.peerings, i.groupId, j.groupId)
  {
    var m := GroupMap(p.interfaces);
    GroupMapLists(p.interfaces);
    if AllowedPair(p, k) {
      var e :| e in p.edges && e.fromName == i.name && e.toName == j.name;
      var x, y :| x in m && y in m && Peered(input.peerings, x, y) && e == EdgeOf(m[x], m[y]);
      EdgeEnds(p, c, i, j, m[x], m[y]);
    }
    if Peered(input.peerings, i.groupId, j.groupId) {
      assert EdgeOf(m[i.groupId], m[j.groupId]) in p.edges;
    }
  }

  /** Between the interfaces of two groups the decision is the peering table's, in either direction. */
  lemma ForwardingIsPeering(p: Plan, input: PlanInput, c: Config, i: Interface, j: Interface, k: Packet)
    requires ValidPlan(p, c) && EdgesOf(p.edges, input.peerings, GroupMap(p.interfaces)) && c.first >= 0
    requires i in p.interfaces && j in p.interfaces && k.iif == i.name && k.oif == j.name
    ensures Forwarded(p, k) <==> k.track != Invalid && Peered(input.peerings, i.groupId, j.groupId)
  {
    ForwardExactly(p, c, k);
    PairIsPeering(p, input, c, i, j, k);
    assert LabFace(p, k.iif) && LabFace(p, k.oif);
  }

  /** What path discovery and error handling need. */
  predicate Reports(icmpType: string) {
    icmpType in {"destination-unreachable", "time-exceeded", "parameter-problem"}
  }

  /** What a VM may ask of the Gateway itself: DHCP by broadcast, and its own interface's services. */
  predicate OwnService(i: Interface, x: Proxy, k: Packet) {
    || (k.dest == 0xffff_ffff && k.protocol == Udp && k.dport == 67)
    || (k.dest == i.gatewayIp &&
        (|| (k.protocol == Udp && k.dport in {67, 53})
         || (k.protocol == Tcp && k.dport in {53, x.http, x.https})
         || (k.protocol == Icmp && (k.icmpType == "echo-request" || Reports(k.icmpType)))))
  }

  lemma BaseSilent(p: Plan, c: Config, sources: seq<Cidr>, i: Interface, k: Packet)
    requires ValidPlan(p, c) && i in p.interfaces && k.iif == i.name && k.track == New
    ensures Verdict(InputBase(p, sources), p, k) == None
  {
    LabNames(p, c, i);
    BaseVerdict(p, sources, k);
  }

  lemma {:induction false} NothingMatches(rules: seq<Rule>, p: Plan, k: Packet)
    requires forall r :: r in rules ==> !Matches(r, p, k)
    ensures Verdict(rules, p, k) == None
  {
    if rules != [] {
      NothingMatches(rules[1..], p, k);
    }
  }

  /** A VM reaches the Gateway only on its own interface's address: another group's address is answered by nothing. */
  lemma OnlyOwnGateway(p: Plan, c: Config, x: Proxy, sources: seq<Cidr>, i: Interface, k: Packet)
    requires ValidPlan(p, c) && c.first >= 0 && i in p.interfaces && k.iif == i.name && k.track == New
    ensures Admitted(p, x, sources, k) <==> OwnService(i, x, k)
  {
    VerdictConcat(InputBase(p, sources), InputLab(p, x), p, k);
    BaseSilent(p, c, sources, i, k);
    var rules := InputLab(p, x);
    OnlyAction(rules, Accept, p, k);
    LabNames(p, c, i);
    assert LabFace(p, k.iif);
    assert InTarget(OwnAddress, p, k) <==> k.dest == i.gatewayIp;
    OwnRules(p, x, i, k);
  }

  lemma OwnRules(p: Plan, x: Proxy, i: Interface, k: Packet)
    requires i in p.interfaces && LabFace(p, k.iif)
    requires InTarget(OwnAddress, p, k) <==> k.dest == i.gatewayIp
    ensures (exists r :: r in InputLab(p, x) && Matches(r, p, k)) <==> OwnService(i, x, k)
  {
    var rules := InputLab(p, x);
    assert (exists r :: r in rules && Matches(r, p, k)) <==>
      Matches(rules[0], p, k) || Matches(rules[1], p, k) || Matches(rules[2], p, k) ||
      Matches(rules[3], p, k) || Matches(rules[4], p, k) || Matches(rules[5], p, k);
  }

  /** The addresses the public Internet does not route, octet by octet. */
  predicate Unrouted(address: nat) {
    var a, b := address / 16777216, address / 65536 % 256;
    || a in {0, 10, 127} || a >= 224
    || (a == 100 && 64 <= b <= 127) || (a == 169 && b == 254) || (a == 172 && 16 <= b <= 31) || (a == 192 && b == 168)
  }

  lemma PrivateExactly(p: Plan, k: Packet)
    requires k.dest < 0x1_0000_0000
    ensures InTarget(Private, p, k) <==> Unrouted(k.dest)
  {
    Blocks(k.dest);
    forall i | 0 <= i < |PRIVATE| ensures PRIVATE[i] in PRIVATE { }
    if InTarget(Private, p, k) {
      var c :| c in PRIVATE && Contains(c, k.dest);
      var i :| 0 <= i < |PRIVATE| && PRIVATE[i] == c;
      assert InBlock(i, k.dest);
    }
    if Unrouted(k.dest) {
      var i :| 0 <= i < |PRIVATE| && InBlock(i, k.dest);
      assert PRIVATE[i] in PRIVATE && Contains(PRIVATE[i], k.dest);
    }
  }

  predicate InBlock(i: nat, address: nat)
    requires i < |PRIVATE|
  {
    Contains(PRIVATE[i], address)
  }

  lemma AlignedRange(n: nat, size: nat, d: nat)
    requires size > 0 && n % size == 0
    ensures d / size == n / size <==> n <= d < n + size
  {
    var q, k := n / size, d / size;
    assert n == q * size && d == k * size + d % size;
    if k < q {
      Monotone(k + 1, q, size);
    } else if q < k {
      Monotone(q + 1, k, size);
    }
  }

  lemma Monotone(a: nat, b: nat, size: nat)
    requires a <= b
    ensures a * size <= b * size
  { }

  lemma Sizes()
    ensures BlockSize(8) == 16777216 && BlockSize(10) == 4194304 && BlockSize(12) == 1048576
    ensures BlockSize(16) == 65536 && BlockSize(4) == 268435456
  {
    assert Pow2(8) == 256;
    assert Pow2(12) == 4096;
    assert Pow2(16) == 65536;
    assert Pow2(20) == 1048576;
    assert Pow2(22) == 4194304;
    assert Pow2(24) == 16777216;
    assert Pow2(28) == 268435456;
  }

  /** Membership of each block as a range. */
  lemma BlockRange(i: nat, d: nat)
    requires i < |PRIVATE|
    ensures InBlock(i, d) <==> PRIVATE[i].network <= d < PRIVATE[i].network + BlockSize(PRIVATE[i].prefix)
  {
    Sizes();
    AlignedRange(PRIVATE[i].network, BlockSize(PRIVATE[i].prefix), d);
  }

  lemma Blocks(d: nat)
    requires d < 0x1_0000_0000
    ensures (exists i :: 0 <= i < |PRIVATE| && InBlock(i, d)) <==> Unrouted(d)
  {
    Sizes();
    forall i | 0 <= i < |PRIVATE|
      ensures InBlock(i, d) <==> PRIVATE[i].network <= d < PRIVATE[i].network + BlockSize(PRIVATE[i].prefix)
    {
      BlockRange(i, d);
    }
    WholeOctets(d);
    assert Unrouted(d) <==>
      || InBlock(0, d) || InBlock(1, d) || InBlock(2, d) || InBlock(3, d) || InBlock(4, d) || InBlock(5, d)
      || InBlock(6, d) || InBlock(7, d) || InBlock(8, d);
  }

  /** The same ranges in octets. */
  lemma WholeOctets(d: nat)
    requires d < 0x1_0000_0000
    ensures Unrouted(d) <==>
      || d < 0x0100_0000 || 0x0a00_0000 <= d < 0x0b00_0000 || 0x6440_0000 <= d < 0x6480_0000
      || 0x7f00_0000 <= d < 0x8000_0000 || 0xa9fe_0000 <= d < 0xa9ff_0000 || 0xac10_0000 <= d < 0xac20_0000
      || 0xc0a8_0000 <= d < 0xc0a9_0000 || 0xe000_0000 <= d
  {
    var a, b := d / 16777216, d / 65536 % 256;
    assert d / 65536 == 256 * a + b;
    assert 16777216 * a + 65536 * b <= d < 16777216 * a + 65536 * b + 65536;
  }

  /** Web traffic to public addresses, and nothing else, is handed to Squid: port 80 to its HTTP port and port 443
      to its HTTPS port; the input chain then lets the redirected packet in. */
  lemma ProxiedExactly(p: Plan, c: Config, x: Proxy, sources: seq<Cidr>, i: Interface, k: Packet)
    requires ValidPlan(p, c) && c.first >= 0 && i in p.interfaces && k.iif == i.name && k.dest < 0x1_0000_0000
    ensures var v, public := Verdict(Prerouting(p, x), p, k), !InTarget(LabSubnets, p, k) && !Unrouted(k.dest);
      if public && k.protocol == Tcp && k.dport in {80, 443} then
        && v == Some(Redirect(if k.dport == 80 then x.http else x.https))
        && (k.track == New ==> Admitted(p, x, sources, k.(dest := i.gatewayIp, dport := v.value.port)))
      else v == None || v == Some(Return)
  {
    ProxyRules(p, x, i, k);
    PrivateExactly(p, k);
    var v := Verdict(Prerouting(p, x), p, k);
    if v.Some? && v.value.Redirect? && k.track == New {
      OnlyOwnGateway(p, c, x, sources, i, k.(dest := i.gatewayIp, dport := v.value.port));
    }
  }

  lemma ProxyRules(p: Plan, x: Proxy, i: Interface, k: Packet)
    requires i in p.interfaces && k.iif == i.name
    ensures Verdict(Prerouting(p, x), p, k) ==
      if InTarget(LabSubnets, p, k) || InTarget(Private, p, k) then Some(Return)
      else if k.protocol == Tcp && k.dport == 80 then Some(Redirect(x.http))
      else if k.protocol == Tcp && k.dport == 443 then Some(Redirect(x.https))
      else None
  {
    var rules := Prerouting(p, x);
    assert LabFace(p, k.iif);
    var stays, redirects := rules[..2], rules[2..];
    assert rules == stays + redirects;
    VerdictConcat(stays, redirects, p, k);
    OnlyAction(stays, Return, p, k);
    assert (exists r :: r in stays && Matches(r, p, k)) <==> Matches(rules[0], p, k) || Matches(rules[1], p, k);
    assert redirects == [rules[2]] + [rules[3]];
    VerdictConcat([rules[2]], [rules[3]], p, k);
    VerdictOne(rules[2], p, k);
    VerdictOne(rules[3], p, k);
  }

  // ---- the outside -----------------------------------------------------------------------------------------------

  ghost predicate FromSources(sources: seq<Cidr>, k: Packet) {
    exists c :: c in sources && Contains(c, k.source)
  }

  ghost predicate Outside(p: Plan, sources: seq<Cidr>, k: Packet) {
    || (k.iif == p.uplink && k.protocol == Udp && k.sport == 67 && k.dport == 68)
    || (k.iif == p.management && FromSources(sources, k)
        && ((k.protocol == Tcp && k.dport == 22) || (k.protocol == Icmp && k.icmpType == "echo-request")))
  }

  lemma LabSilent(p: Plan, x: Proxy, k: Packet)
    requires !LabFace(p, k.iif)
    ensures Verdict(InputLab(p, x), p, k) == None
  {
    forall r | r in InputLab(p, x) ensures !Matches(r, p, k) { }
    NothingMatches(InputLab(p, x), p, k);
  }

  lemma StatesSilent(p: Plan, k: Packet)
    requires k.track == New
    ensures Verdict(STATES, p, k) == None
  {
    NothingMatches(STATES, p, k);
  }

  lemma ServiceMatches(p: Plan, sources: seq<Cidr>, k: Packet)
    requires k.iif != "lo"
    ensures (exists r :: r in Services(p, sources) && Matches(r, p, k)) <==> Outside(p, sources, k)
  {
    var rules := Services(p, sources);
    assert !Matches(rules[0], p, k);
    assert Matches(rules[1], p, k) <==> k.iif == p.uplink && k.protocol == Udp && k.sport == 67 && k.dport == 68;
    assert Matches(rules[2], p, k) <==>
      k.iif == p.management && FromSources(sources, k) && k.protocol == Tcp && k.dport == 22;
    assert rules[1] in rules && rules[2] in rules && rules[3] in rules;
  }

  lemma BaseVerdict(p: Plan, sources: seq<Cidr>, k: Packet)
    requires k.iif != "lo" && k.track == New
    ensures Verdict(InputBase(p, sources), p, k) == if Outside(p, sources, k) then Some(Accept) else None
  {
    VerdictConcat(STATES, Services(p, sources), p, k);
    StatesSilent(p, k);
    OnlyAction(Services(p, sources), Accept, p, k);
    ServiceMatches(p, sources, k);
  }

  /** From anywhere but a lab interface or the loopback: DHCP replies on the uplink, and SSH and pings from the approved
      sources on the management interface. */
  lemma OutsideExactly(p: Plan, x: Proxy, sources: seq<Cidr>, k: Packet)
    requires !LabFace(p, k.iif) && k.iif != "lo" && k.track == New
    ensures Admitted(p, x, sources, k) <==> Outside(p, sources, k)
  {
    VerdictConcat(InputBase(p, sources), InputLab(p, x), p, k);
    LabSilent(p, x, k);
    BaseVerdict(p, sources, k);
  }
}
