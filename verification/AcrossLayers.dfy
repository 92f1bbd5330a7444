/** The Gateway's forward chain and the VMs' own firewalls, built from the same tables, agree. */
module AcrossLayers {
  import opened Base
  import opened Slots
  import opened Projection
  import opened ProjectionLaws
  import opened Groups
  import opened GroupRuns
  import opened Views
  import opened Allowlists
  import opened DomainNames
  import GP = GatewayPlan
  import N = Nftables
  import V = VmFirewall
  import I = VmIsolation
  import T = AccessTrunk
  import Q = Squid
  import M = SquidMeaning

  type DomainTable = map<int, seq<Domain>>

  function DomainsOf(domains: DomainTable, profile: int): seq<Domain> {
    if profile in domains then domains[profile] else []
  }

  /** A missing VLAN or subnet reads as one no slot has. */
  function InputOf(id: int, g: Group, domains: DomainTable): GP.GroupInput {
    GP.GroupInput(id, if g.vlan.Some? then g.vlan.value else 0, if g.subnet.Some? then g.subnet.value else Cidr(0, 0),
                  DomainsOf(domains, g.profile))
  }

  function InputsBelow(db: Db, domains: DomainTable, n: nat): seq<GP.GroupInput> {
    if n == 0 then []
    else
      InputsBelow(db, domains, n - 1)
      + if n - 1 in GatewayGroups(db) then [InputOf(n - 1, db.groups[n - 1], domains)] else []
  }

  /** Peerings with a side that is not operational yet are left out, not refused. */
  function RealisablePeerings(db: Db, peerings: seq<GP.Peering>): seq<GP.Peering> {
    if peerings == [] then []
    else (if peerings[0].a in PeeringGroups(db) && peerings[0].b in PeeringGroups(db) then [peerings[0]] else [])
         + RealisablePeerings(db, peerings[1..])
  }

  function GatewayInput(db: Db, domains: DomainTable, peerings: seq<GP.Peering>, trunk: string, uplink: string,
                        management: string): GP.PlanInput {
    GP.PlanInput(InputsBelow(db, domains, db.nextId), RealisablePeerings(db, peerings), trunk, uplink, management)
  }

  /** The other side of a peering, as the query picks it. */
  function OtherSide(p: GP.Peering, id: int): int { if p.a == id then p.b else p.a }

  function PeerSubnets(db: Db, peerings: seq<GP.Peering>, id: int): seq<Cidr> {
    if peerings == [] then []
    else
      var peer := OtherSide(peerings[0], id);
      (if (peerings[0].a == id || peerings[0].b == id) && peer in PeerGroups(db) then [db.groups[peer].subnet.value]
       else [])
      + PeerSubnets(db, peerings[1..], id)
  }

  // ---- membership in the listings -----------------------------------------------------------------

  lemma {:induction false} InputsMembers(db: Db, domains: DomainTable, n: nat)
    ensures var inputs := InputsBelow(db, domains, n);
      && (forall g :: g in inputs <==>
           0 <= g.id < n && g.id in GatewayGroups(db) && g == InputOf(g.id, db.groups[g.id], domains))
      && (forall i, j :: 0 <= i < j < |inputs| ==> inputs[i].id < inputs[j].id)
  {
    if n > 0 {
      InputsMembers(db, domains, n - 1);
      var before, inputs := InputsBelow(db, domains, n - 1), InputsBelow(db, domains, n);
      forall i, j | 0 <= i < j < |inputs| ensures inputs[i].id < inputs[j].id {
        if j == |before| { assert inputs[i] in before; }
      }
    }
  }

  lemma {:induction false} RealisableMembers(db: Db, peerings: seq<GP.Peering>, p: GP.Peering)
    ensures p in RealisablePeerings(db, peerings) <==>
      p in peerings && p.a in PeeringGroups(db) && p.b in PeeringGroups(db)
  {
    if peerings != [] {
      RealisableMembers(db, peerings[1..], p);
      assert peerings == [peerings[0]] + peerings[1..];
    }
  }

  lemma RealisablePeered(db: Db, peerings: seq<GP.Peering>, x: int, y: int)
    requires x in PeeringGroups(db) && y in PeeringGroups(db)
    ensures GP.Peered(RealisablePeerings(db, peerings), x, y) <==> GP.Peered(peerings, x, y)
  {
    var kept := RealisablePeerings(db, peerings);
    if GP.Peered(kept, x, y) {
      var i :| 0 <= i < |kept| && GP.Joins(kept[i], x, y);
      RealisableMembers(db, peerings, kept[i]);
      var j :| 0 <= j < |peerings| && peerings[j] == kept[i];
      assert GP.Joins(peerings[j], x, y);
    }
    if GP.Peered(peerings, x, y) {
      var i :| 0 <= i < |peerings| && GP.Joins(peerings[i], x, y);
      RealisableMembers(db, peerings, peerings[i]);
      var j :| 0 <= j < |kept| && kept[j] == peerings[i];
      assert GP.Joins(kept[j], x, y);
    }
  }

  lemma {:induction false} PeerSubnetListed(db: Db, peerings: seq<GP.Peering>, id: int, s: Cidr)
    ensures s in PeerSubnets(db, peerings, id) <==>
      exists x :: x in PeerGroups(db) && db.groups[x].subnet == Some(s) && GP.Peered(peerings, x, id)
  {
    if peerings != [] {
      var p, rest := peerings[0], peerings[1..];
      PeerSubnetListed(db, rest, id, s);
      forall x ensures GP.Peered(peerings, x, id) <==> GP.Joins(p, x, id) || GP.Peered(rest, x, id) {
        PeeredCons(p, rest, x, id);
        assert peerings == [p] + rest;
      }
    }
  }

  lemma PeeredCons(p: GP.Peering, rest: seq<GP.Peering>, x: int, y: int)
    ensures GP.Peered([p] + rest, x, y) <==> GP.Joins(p, x, y) || GP.Peered(rest, x, y)
  {
    var all := [p] + rest;
    if GP.Peered(rest, x, y) {
      var i :| 0 <= i < |rest| && GP.Joins(rest[i], x, y);
      assert GP.Joins(all[i + 1], x, y);
    }
    if GP.Joins(p, x, y) { assert GP.Joins(all[0], x, y); }
    if GP.Peered(all, x, y) {
      var i :| 0 <= i < |all| && GP.Joins(all[i], x, y);
      if i > 0 { assert rest[i - 1] == all[i]; }
    }
  }

  // ---- the Gateway plan ------------------------------------------------------------------------------------

  lemma ClaimedMatches(db: Db, id: int, domains: DomainTable)
    requires Inv(db) && id in GatewayGroups(db)
    ensures GP.MatchesSlot(InputOf(id, db.groups[id], domains), APPROVED)
  {
    ViewsCoincide(db);
    assert Claimed(db.groups[id]);
  }

  /** On a reachable table the Gateway plan can fail only over an allowlist or a group peered with itself. */
  lemma GatewayBuildsExactly(db: Db, domains: DomainTable, peerings: seq<GP.Peering>,
                             trunk: string, uplink: string, management: string)
    requires Inv(db) && GP.ValidNames(trunk, uplink, management)
    ensures GP.Buildable(GatewayInput(db, domains, peerings, trunk, uplink, management), APPROVED) <==>
      && (forall id :: id in GatewayGroups(db) ==> GP.GoodDomains(DomainsOf(domains, db.groups[id].profile)))
      && (forall p :: p in peerings && p.a in GatewayGroups(db) ==> p.a != p.b)
  {
    var input := GatewayInput(db, domains, peerings, trunk, uplink, management);
    InputsNamed(db, domains);
    ViewsCoincide(db);
    InputsFit(db, domains);
    forall p ensures p in input.peerings <==> p in peerings && p.a in GatewayGroups(db) && p.b in GatewayGroups(db) {
      RealisableMembers(db, peerings, p);
    }
  }

  lemma InputsNamed(db: Db, domains: DomainTable)
    requires Inv(db)
    ensures var inputs := InputsBelow(db, domains, db.nextId);
      && (forall id :: id in GatewayGroups(db) <==> GP.Named(inputs, id))
      && ((forall g :: g in inputs ==> GP.GoodDomains(g.domains)) <==>
          forall id :: id in GatewayGroups(db) ==> GP.GoodDomains(DomainsOf(domains, db.groups[id].profile)))
  {
    var inputs := InputsBelow(db, domains, db.nextId);
    InputsMembers(db, domains, db.nextId);
    forall id | id in GatewayGroups(db) ensures InputOf(id, db.groups[id], domains) in inputs { }
  }

  lemma InputsFit(db: Db, domains: DomainTable)
    requires Inv(db)
    ensures var inputs := InputsBelow(db, domains, db.nextId);
      GP.NoDuplicates(inputs) && forall g :: g in inputs ==> GP.MatchesSlot(g, APPROVED)
  {
    var inputs := InputsBelow(db, domains, db.nextId);
    InputsMembers(db, domains, db.nextId);
    ViewsCoincide(db);
    forall g | g in inputs ensures GP.MatchesSlot(g, APPROVED) {
      ClaimedMatches(db, g.id, domains);
    }
    forall i, j | 0 <= i < j < |inputs| ensures inputs[i].vlan != inputs[j].vlan && inputs[i].id != inputs[j].id {
      assert inputs[i] in inputs && inputs[j] in inputs;
      assert Claimed(db.groups[inputs[i].id]) && Claimed(db.groups[inputs[j].id]);
    }
  }

  // ---- agreement ---------------------------------------------------------------------------------------------

  /** A subnet is in a group's peer list exactly when its holder is peered with that group. */
  lemma PeerListIsPeering(db: Db, peerings: seq<GP.Peering>, g: int, h: int)
    requires Inv(db) && g in GatewayGroups(db) && h in GatewayGroups(db)
    ensures db.groups[g].subnet.Some?
    ensures db.groups[g].subnet.value in PeerSubnets(db, peerings, h) <==> GP.Peered(peerings, g, h)
  {
    ViewsCoincide(db);
    assert Claimed(db.groups[g]);
    var s := db.groups[g].subnet.value;
    PeerSubnetListed(db, peerings, h, s);
    forall x | x in PeerGroups(db) && db.groups[x].subnet == Some(s) ensures x == g {
      assert Claimed(db.groups[x]);
      SlotNamesInjective(db.groups[x].vlan.value, db.groups[g].vlan.value, APPROVED);
    }
  }

  ghost predicate BuiltFrom(p: GP.Plan, db: Db, domains: DomainTable, peerings: seq<GP.Peering>) {
    GP.ValidPlan(p, APPROVED) && GP.PlanOf(p, GatewayInput(db, domains, peerings, p.trunk, p.uplink, p.management))
  }

  lemma InterfaceOf(p: GP.Plan, db: Db, domains: DomainTable, peerings: seq<GP.Peering>, i: GP.Interface)
    requires BuiltFrom(p, db, domains, peerings) && i in p.interfaces
    ensures i.groupId in GatewayGroups(db) && i.vlan == InputOf(i.groupId, db.groups[i.groupId], domains).vlan
  {
    var input := GatewayInput(db, domains, peerings, p.trunk, p.uplink, p.management);
    var g :| g in input.groups && GP.Represents(i, g);
    InputsMembers(db, domains, db.nextId);
  }

  /** The Gateway forwards from one group to another exactly when the first one's subnet is in the peer list that the
      second one's VMs are given. */
  lemma ForwardingMatchesPeerList(db: Db, domains: DomainTable, peerings: seq<GP.Peering>, p: GP.Plan,
                                  i: GP.Interface, j: GP.Interface, n: N.Packet)
    requires Inv(db) && BuiltFrom(p, db, domains, peerings)
    requires i in p.interfaces && j in p.interfaces && n.iif == i.name && n.oif == j.name
    ensures i.groupId in db.groups && j.groupId in db.groups && db.groups[i.groupId].subnet.Some?
    ensures N.Forwarded(p, n) <==>
      n.track != N.Invalid && db.groups[i.groupId].subnet.value in PeerSubnets(db, peerings, j.groupId)
  {
    InterfaceOf(p, db, domains, peerings, i);
    InterfaceOf(p, db, domains, peerings, j);
    ViewsCoincide(db);
    PeerListIsPeering(db, peerings, i.groupId, j.groupId);
    RealisablePeered(db, peerings, i.groupId, j.groupId);
    N.ForwardingIsPeering(p, GatewayInput(db, domains, peerings, p.trunk, p.uplink, p.management), APPROVED, i, j, n);
  }

  function OnTheWire(protocol: V.Protocol): N.Protocol {
    match protocol
    case Tcp => N.Tcp
    case Udp => N.Udp
    case Icmp => N.Icmp
    case Other => N.Other
  }

  /** The packet the VM firewalls see, as the Gateway sees it when it opens a connection from one interface to
      another. */
  predicate SamePacket(k: V.Packet, n: N.Packet, i: GP.Interface, j: GP.Interface) {
    && n.iif == i.name && n.oif == j.name && n.track == N.New
    && n.source == k.source && n.dest == k.dest && n.protocol == OnTheWire(k.protocol)
    && (k.protocol in {V.Tcp, V.Udp} ==> n.sport == k.sport && n.dport == k.dport)
  }

  /** Out of the sender under its own firewall and source filter, past the proxy, through the forward chain, and in
      at the receiver. */
  ghost predicate Arrives(p: GP.Plan, x: N.Proxy, sender: V.Policy, receiver: V.Policy, k: V.Packet, n: N.Packet) {
    && V.MaySource(sender, k.source) && V.Passes(sender, false, k)
    && (N.Verdict(N.Prerouting(p, x), p, n).Some? ==> !N.Verdict(N.Prerouting(p, x), p, n).value.Redirect?)
    && N.Forwarded(p, n)
    && V.Passes(receiver, true, k)
  }

  /** Traffic between labs is routed, web ports included. */
  lemma NeverProxied(p: GP.Plan, x: N.Proxy, i: GP.Interface, j: GP.Interface, n: N.Packet)
    requires i in p.interfaces && j in p.interfaces && n.iif == i.name && Contains(j.subnet, n.dest)
    ensures N.Verdict(N.Prerouting(p, x), p, n) == Some(N.Return)
  {
    assert N.LabFace(p, n.iif) && N.InTarget(N.LabSubnets, p, n);
    assert N.Matches(N.Prerouting(p, x)[0], p, n);
  }

  /** Two interfaces of one plan belong to two groups with different slots of the pool. */
  lemma TwoGroups(db: Db, domains: DomainTable, peerings: seq<GP.Peering>, p: GP.Plan, i: GP.Interface, j: GP.Interface)
    requires Inv(db) && BuiltFrom(p, db, domains, peerings)
    requires i in p.interfaces && j in p.interfaces && i != j
    ensures InPool(i.vlan, APPROVED) && InPool(j.vlan, APPROVED) && i.vlan != j.vlan
    ensures i.subnet == SlotOf(i.vlan, APPROVED).subnet && j.subnet == SlotOf(j.vlan, APPROVED).subnet
    ensures i.groupId in db.groups && db.groups[i.groupId].subnet == Some(i.subnet)
    ensures i.subnet in PeerSubnets(db, peerings, j.groupId) <==> GP.Peered(peerings, i.groupId, j.groupId)
  {
    InterfaceOf(p, db, domains, peerings, i);
    InterfaceOf(p, db, domains, peerings, j);
    PeerListIsPeering(db, peerings, i.groupId, j.groupId);
    ViewsCoincide(db);
    assert Claimed(db.groups[i.groupId]);
    assert i.vlan != j.vlan by {
      KeysDistinctElements(GP.VlanKey, p.interfaces);
      assert GP.VlanKey(i) == i.vlan && GP.VlanKey(j) == j.vlan;
    }
  }

  /** From a VM of one group to an address of another group's VMs: a new connection arrives exactly when the sender
      uses an address of its own group, the two groups are peered and the packet does not serve DHCP. */
  lemma EndToEnd(db: Db, domains: DomainTable, peerings: seq<GP.Peering>, p: GP.Plan, x: N.Proxy,
                 i: GP.Interface, j: GP.Interface, sender: V.Input, receiver: V.Input, k: V.Packet, n: N.Packet)
    requires Inv(db) && BuiltFrom(p, db, domains, peerings)
    requires i in p.interfaces && j in p.interfaces && i != j && SamePacket(k, n, i, j)
    requires GivenTo(sender, i, db, peerings) && GivenTo(receiver, j, db, peerings)
    requires NoSelfPeering(peerings) && I.VmAddress(j.vlan, APPROVED, k.dest)
    ensures V.BuildVmFirewallPolicy(sender).Some? && V.BuildVmFirewallPolicy(receiver).Some?
    ensures Arrives(p, x, V.BuildVmFirewallPolicy(sender).value, V.BuildVmFirewallPolicy(receiver).value, k, n) <==>
      I.VmAddress(i.vlan, APPROVED, k.source) && GP.Peered(peerings, i.groupId, j.groupId) && !I.ServesDhcp(k)
  {
    TwoGroups(db, domains, peerings, p, i, j);
    NeverProxied(p, x, i, j, n);
    ForwardingMatchesPeerList(db, domains, peerings, p, i, j, n);
    GivenIsOfGroup(db, domains, peerings, p, i, sender);
    GivenIsOfGroup(db, domains, peerings, p, j, receiver);
    I.VmToVm(i.vlan, j.vlan, APPROVED, sender, receiver, k);
  }

  /** The table of peerings holds each pair once, the smaller id first. */
  ghost predicate NoSelfPeering(peerings: seq<GP.Peering>) { forall p :: p in peerings ==> p.a < p.b }

  /** What the VMs of an interface's group are given: its slot, its session ports, and its peers' subnets. */
  ghost predicate GivenTo(input: V.Input, i: GP.Interface, db: Db, peerings: seq<GP.Peering>) {
    && InPool(i.vlan, APPROVED)
    && input == I.InputFor(i.vlan, APPROVED, input.ports, PeerSubnets(db, peerings, i.groupId), input.allowSameGroup)
    && |input.ports| > 0 && forall q :: q in input.ports ==> 0 < q && q < 65536
  }

  lemma GivenIsOfGroup(db: Db, domains: DomainTable, peerings: seq<GP.Peering>, p: GP.Plan,
                        i: GP.Interface, input: V.Input)
    requires Inv(db) && BuiltFrom(p, db, domains, peerings) && i in p.interfaces
    requires NoSelfPeering(peerings) && GivenTo(input, i, db, peerings)
    ensures I.OfGroup(input, i.vlan, APPROVED)
  {
    PeersCanonical(db, peerings, i.groupId);
    InterfaceOf(p, db, domains, peerings, i);
    PeerListIsPeering(db, peerings, i.groupId, i.groupId);
    ViewsCoincide(db);
    assert Claimed(db.groups[i.groupId]);
  }

  lemma PeersCanonical(db: Db, peerings: seq<GP.Peering>, id: int)
    requires Inv(db)
    ensures I.CanonicalPeers(PeerSubnets(db, peerings, id), APPROVED)
  {
    ViewsCoincide(db);
    forall s | s in PeerSubnets(db, peerings, id)
      ensures exists u :: InPool(u, APPROVED) && s == SlotOf(u, APPROVED).subnet
    {
      PeerSubnetListed(db, peerings, id, s);
      var x :| x in PeerGroups(db) && db.groups[x].subnet == Some(s) && GP.Peered(peerings, x, id);
      assert Claimed(db.groups[x]);
      assert InPool(db.groups[x].vlan.value, APPROVED);
    }
  }

  // ---- the proxy -------------------------------------------------------------------------------------------------

  /** A domain that the group's profile lists names the host, after normalisation. */
  ghost predicate ProfileAdmits(db: Db, domains: DomainTable, id: int, host: string)
    requires id in db.groups
  {
    var profile := db.groups[id].profile;
    profile in domains && exists d :: d in domains[profile] && EntryCovers(d, host)
  }

  ghost predicate EntryCovers(d: Domain, host: string) {
    match NormaliseAllowedDomain(d.name)
    case None => false
    case Some(name) => host == name || (d.subdomains && M.Below(host, name))
  }

  lemma AllowlistOfProfile(db: Db, domains: DomainTable, peerings: seq<GP.Peering>, p: GP.Plan, i: GP.Interface,
                           host: string)
    requires BuiltFrom(p, db, domains, peerings) && i in p.interfaces && ProfilesNormalise(db, domains)
    ensures i.groupId in db.groups
    ensures M.Admits(i.allowlist, host) <==> ProfileAdmits(db, domains, i.groupId, host)
  {
    var input := GatewayInput(db, domains, peerings, p.trunk, p.uplink, p.management);
    var g :| g in input.groups && GP.Represents(i, g);
    InputsMembers(db, domains, db.nextId);
    var listed := g.domains;
    var entries :| GP.AreNormalised(entries, listed) && !SomeClash(entries);
    EntriesCover(entries, listed, host);
    assert SameEntries(i.allowlist, entries);
  }

  lemma EntriesCover(entries: seq<Domain>, listed: seq<Domain>, host: string)
    requires GP.AreNormalised(entries, listed)
    ensures M.Admits(entries, host) <==> exists d :: d in listed && EntryCovers(d, host)
  {
    if M.Admits(entries, host) {
      var e :| e in entries && M.Covers(e, host);
      var k :| 0 <= k < |entries| && entries[k] == e;
      assert NormaliseAllowedDomain(listed[k].name) == Some(e.name);
      assert listed[k] in listed && EntryCovers(listed[k], host);
    }
    if d :| d in listed && EntryCovers(d, host) {
      var k :| 0 <= k < |listed| && listed[k] == d;
      assert entries[k] in entries && M.Covers(entries[k], host);
    }
  }

  /** Without it there is no plan (`GatewayBuildsExactly`). */
  ghost predicate ProfilesNormalise(db: Db, domains: DomainTable) {
    forall id :: id in GatewayGroups(db) ==> GP.GoodDomains(DomainsOf(domains, db.groups[id].profile))
  }

  /** From a VM's address to the web: plain requests are served on 80 and 443 exactly for the domains listed in the
      profile of the group that holds the address, and TLS is tunnelled on 443 exactly for server names among them. */
  lemma WebAccessOfProfile(db: Db, domains: DomainTable, peerings: seq<GP.Peering>, p: GP.Plan, s: Q.Settings,
                           i: GP.Interface, source: nat, port: nat, host: string, sni: Option<string>)
    requires Inv(db) && BuiltFrom(p, db, domains, peerings) && ProfilesNormalise(db, domains)
    requires i in p.interfaces && Contains(i.subnet, source)
    ensures i.groupId in db.groups && db.groups[i.groupId].subnet == Some(i.subnet)
    ensures Q.Served(Q.File(s, p.interfaces), Q.Request(source, false, port, host)) <==>
      (port == 80 || port == 443) && ProfileAdmits(db, domains, i.groupId, host)
    ensures Q.Tunnelled(Q.File(s, p.interfaces), source, port, host, sni) <==>
      port == 443 && sni.Some? && ProfileAdmits(db, domains, i.groupId, sni.value)
  {
    HolderOf(db, domains, peerings, p, i);
    AllowlistOfProfile(db, domains, peerings, p, i, host);
    M.PlainRequests(s, p.interfaces, p.trunk, APPROVED, i, Q.Request(source, false, port, host));
    M.TlsConnections(s, p.interfaces, p.trunk, APPROVED, i, source, port, host, sni);
    if sni.Some? { AllowlistOfProfile(db, domains, peerings, p, i, sni.value); }
  }

  lemma HolderOf(db: Db, domains: DomainTable, peerings: seq<GP.Peering>, p: GP.Plan, i: GP.Interface)
    requires Inv(db) && BuiltFrom(p, db, domains, peerings) && i in p.interfaces
    ensures i.groupId in db.groups && db.groups[i.groupId].subnet == Some(i.subnet)
  {
    var input := GatewayInput(db, domains, peerings, p.trunk, p.uplink, p.management);
    var g :| g in input.groups && GP.Represents(i, g);
    InputsMembers(db, domains, db.nextId);
    ViewsCoincide(db);
    assert Claimed(db.groups[i.groupId]);
  }

  // ---- the Access trunk ------------------------------------------------------------------------------------------

  /** The list the infrastructure plan hands over is one the trunk planner never refuses, whatever the table holds. */
  lemma TrunkNeverRefused(rows: seq<StatefulRow>, accessVlans: seq<int>, gatewayVlans: seq<int>, o: T.Observation)
    requires DistinctIds(OperationalRows(rows)) && Plan(OperationalRows(rows), APPROVED).Some?
    requires gatewayVlans == Vlans(Plan(OperationalRows(rows), APPROVED).value)
    requires forall v :: v in accessVlans <==> v == MIGRATION_VLAN || v in gatewayVlans
    requires T.InRange(o.persistent) && T.InRange(o.live)
    ensures T.PlanAccessTrunk(accessVlans, o).Some?
  {
    forall k | 0 <= k < |accessVlans| ensures 2 <= accessVlans[k] <= 4094 {
      var v: int := accessVlans[k];
      assert v in accessVlans;
      if v != MIGRATION_VLAN { GatewayVlanInPool(rows, v); }
    }
    AcceptedExactly(accessVlans, o);
  }

  lemma GatewayVlanInPool(rows: seq<StatefulRow>, v: int)
    requires DistinctIds(OperationalRows(rows)) && Plan(OperationalRows(rows), APPROVED).Some?
    requires v in Vlans(Plan(OperationalRows(rows), APPROVED).value)
    ensures InPool(v, APPROVED)
  {
    var groups := Plan(OperationalRows(rows), APPROVED).value;
    var j :| 0 <= j < |groups| && Vlans(groups)[j] == v;
    PlanSlots(OperationalRows(rows), APPROVED);
    assert PlannedAs(groups[j], SortBy(RowKey, OperationalRows(rows))[j], Taken(OperationalRows(rows)), APPROVED);
  }

  /** What the planner accepts, on wanted and observed lists alike. */
  lemma AcceptedExactly(vlans: seq<int>, o: T.Observation)
    ensures T.PlanAccessTrunk(vlans, o).Some? <==>
      MIGRATION_VLAN in vlans && T.InRange(vlans) && T.InRange(o.persistent) && T.InRange(o.live)
  {
    T.CanonicalKeeps(vlans);
    assert MIGRATION_VLAN in T.Elements(vlans) <==> MIGRATION_VLAN in vlans;
    assert MIGRATION_VLAN in T.Elements(T.CanonicalList(vlans)) <==> MIGRATION_VLAN in T.CanonicalList(vlans);
  }
}
