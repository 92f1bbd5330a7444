/** The Gateway's desired state: one VLAN interface per group and one edge per direction of a peering. */
module GatewayPlan {
  import opened Base
  import opened Decimal
  import opened Slots
  import opened Strings
  import opened DomainNames
  import opened Allowlists
  import GatewayPaths

  datatype GroupInput = GroupInput(id: int, vlan: int, subnet: Cidr, domains: seq<Domain>)

  datatype Peering = Peering(a: int, b: int)

  datatype Interface = Interface(
    groupId: int, vlan: int, name: string, subnet: Cidr, gatewayIp: nat, allowlist: seq<Domain>)

  datatype Edge = Edge(fromVlan: int, toVlan: int, fromName: string, toName: string)

  // ---- allowlists -------------------------------------------------------------------------------------

  ghost predicate ValidAllowlist(allowlist: seq<Domain>) {
    DistinctNames(allowlist) && forall d :: d in allowlist ==> IsDomainName(d.name)
  }

  function Normalised(d: Domain): Option<Domain> {
    var n := NormaliseAllowedDomain(d.name);
    if n.Some? then Some(Domain(n.value, d.subdomains)) else None
  }

  /** `entries` are the listed domains after normalisation; there is none when one does not normalise. */
  ghost predicate AreNormalised(entries: seq<Domain>, domains: seq<Domain>) {
    |entries| == |domains| && forall i :: 0 <= i < |domains| ==> IsEntry(entries[i], domains[i])
  }

  /** The name normalised, the flag as listed. */
  predicate IsEntry(e: Domain, listed: Domain) {
    NormaliseAllowedDomain(listed.name) == Some(e.name) && e.subdomains == listed.subdomains
  }

  /** One entry per name, in one order; a name listed with both flags is a conflict, not a preference. */
  method CanonicalDomains(domains: seq<Domain>) returns (r: Option<seq<Domain>>)
    ensures r.Some? <==> exists entries :: AreNormalised(entries, domains) && !SomeClash(entries)
    ensures r.Some? ==> ValidAllowlist(r.value)
    ensures forall entries :: r.Some? && AreNormalised(entries, domains) ==> SameEntries(r.value, entries)
  {
    var ok, byDomain, keys, entries := CollectDomains(domains);
    if !ok {
      return None;
    }
    OrderedResult(byDomain, keys, entries);
    r := Some(InNameOrder(byDomain, keys));
    NormalisedNames(entries, domains);
    forall other | AreNormalised(other, domains) ensures other == entries { }
  }

  lemma NormalisedNames(entries: seq<Domain>, domains: seq<Domain>)
    requires AreNormalised(entries, domains)
    ensures forall d :: d in entries ==> IsDomainName(d.name)
  {
    forall d | d in entries ensures IsDomainName(d.name) {
      var i :| 0 <= i < |entries| && entries[i] == d;
      assert Normalised(domains[i]) == Some(d);
    }
  }

  lemma NormalisedSnoc(entries: seq<Domain>, domains: seq<Domain>, i: nat, d: Domain)
    requires i < |domains| && AreNormalised(entries, domains[..i]) && Normalised(domains[i]) == Some(d)
    ensures AreNormalised(entries + [d], domains[..i + 1])
  {
    assert domains[..i + 1] == domains[..i] + [domains[i]];
  }

  lemma Unnormalised(domains: seq<Domain>, i: nat)
    requires i < |domains| && Normalised(domains[i]).None?
    ensures forall all :: !AreNormalised(all, domains)
  { }

  method CollectDomains(domains: seq<Domain>)
    returns (ok: bool, byDomain: map<string, bool>, keys: seq<string>, ghost entries: seq<Domain>)
    ensures ok ==> AreNormalised(entries, domains) && Collected(byDomain, keys, entries)
    ensures !ok ==> forall all :: AreNormalised(all, domains) ==> SomeClash(all)
  {
    byDomain, keys, entries := map[], [], [];
    for i := 0 to |domains|
      invariant AreNormalised(entries, domains[..i])
      invariant Collected(byDomain, keys, entries)
    {
      var entry := Normalised(domains[i]);
      if entry.None? {
        Unnormalised(domains, i);
        return false, byDomain, keys, entries;
      }
      var d := entry.value;
      if d.name in byDomain && byDomain[d.name] != d.subdomains {
        ConflictFound(domains, i, byDomain, keys, entries, d);
        return false, byDomain, keys, entries;
      }
      CollectOne(byDomain, keys, entries, d);
      NormalisedSnoc(entries, domains, i, d);
      keys := if d.name in byDomain then keys else keys + [d.name];
      byDomain := byDomain[d.name := d.subdomains];
      entries := entries + [d];
    }
    assert domains[..|domains|] == domains;
    ok := true;
  }

  lemma SameFront(all: seq<Domain>, entries: seq<Domain>, domains: seq<Domain>, i: nat, d: Domain)
    requires i < |domains| && AreNormalised(entries, domains[..i]) && AreNormalised(all, domains)
    requires Normalised(domains[i]) == Some(d)
    ensures all == entries + [d] + all[i + 1..]
  {
    forall k | 0 <= k < i ensures all[k] == entries[k] {
      assert IsEntry(entries[k], domains[..i][k]) && IsEntry(all[k], domains[k]);
    }
    assert IsEntry(all[i], domains[i]);
  }

  lemma ConflictFound(domains: seq<Domain>, i: nat, byDomain: map<string, bool>, keys: seq<string>,
                      entries: seq<Domain>, d: Domain)
    requires i < |domains| && AreNormalised(entries, domains[..i]) && Collected(byDomain, keys, entries)
    requires Normalised(domains[i]) == Some(d) && d.name in byDomain && byDomain[d.name] != d.subdomains
    ensures forall all :: AreNormalised(all, domains) ==> SomeClash(all)
  {
    forall all | AreNormalised(all, domains) ensures SomeClash(all) {
      SameFront(all, entries, domains, i, d);
      CollectClash(byDomain, keys, entries, d, all[i + 1..]);
    }
  }

  // ---- interfaces ----------------------------------------------------------------------------------------

  function InterfaceName(trunk: string, vlan: int): string {
    trunk + "." + if vlan < 0 then "-" + Text(-vlan) else Text(vlan)
  }

  predicate MatchesSlot(g: GroupInput, c: Config)
    requires ValidConfig(c)
  {
    InPool(g.vlan, c) && g.subnet == SlotOf(g.vlan, c).subnet
  }

  /** An interface stands for the canonical slot of its VLAN. */
  ghost predicate CanonicalInterface(i: Interface, trunk: string, c: Config)
    requires ValidConfig(c)
  {
    && InPool(i.vlan, c)
    && i.name == InterfaceName(trunk, i.vlan)
    && i.subnet == SlotOf(i.vlan, c).subnet && i.gatewayIp == SlotOf(i.vlan, c).gatewayIp
    && ValidAllowlist(i.allowlist)
  }

  lemma InterfaceNameInjective(trunk: string, v: nat, w: nat)
    requires InterfaceName(trunk, v) == InterfaceName(trunk, w)
    ensures v == w
  {
    assert InterfaceName(trunk, v)[|trunk| + 1..] == Text(v);
    assert InterfaceName(trunk, w)[|trunk| + 1..] == Text(w);
    DecimalInjective(v, w);
  }

  // ---- peering edges ---------------------------------------------------------------------------------------

  ghost predicate ByGroup(interfaces: seq<Interface>, byGroup: map<int, Interface>) {
    && (forall i :: i in interfaces ==> i.groupId in byGroup && byGroup[i.groupId] == i)
    && (forall id :: id in byGroup ==> byGroup[id] in interfaces && byGroup[id].groupId == id)
  }

  function EdgeOf(from: Interface, to: Interface): Edge {
    Edge(from.vlan, to.vlan, from.name, to.name)
  }

  predicate Joins(p: Peering, x: int, y: int) {
    (p.a == x && p.b == y) || (p.a == y && p.b == x)
  }

  ghost predicate Peered(peerings: seq<Peering>, x: int, y: int) {
    exists i :: 0 <= i < |peerings| && Joins(peerings[i], x, y)
  }

  /** A peering that cannot be realised: a group with itself, or a group without an interface. */
  predicate Unrealisable(p: Peering, byGroup: map<int, Interface>) {
    p.a == p.b || p.a !in byGroup || p.b !in byGroup
  }

  predicate DistinctVlans(byGroup: map<int, Interface>) {
    forall x, y :: x in byGroup && y in byGroup && byGroup[x].vlan == byGroup[y].vlan ==> x == y
  }

  /** Exactly one edge for each direction of each peering. */
  ghost predicate EdgesOf(edges: seq<Edge>, peerings: seq<Peering>, byGroup: map<int, Interface>) {
    && Distinct(edges)
    && (forall e :: e in edges ==>
         exists x, y :: x in byGroup && y in byGroup && Peered(peerings, x, y) && e == EdgeOf(byGroup[x], byGroup[y]))
    && (forall x, y :: x in byGroup && y in byGroup && Peered(peerings, x, y) ==>
         EdgeOf(byGroup[x], byGroup[y]) in edges)
  }

  ghost predicate Seen(seen: set<(int, int)>, peerings: seq<Peering>) {
    && (forall x, y :: x < y ==> ((x, y) in seen <==> Peered(peerings, x, y)))
    && (forall k :: k in seen ==> k.0 < k.1)
  }

  function EdgeKey(e: Edge): int { 65536 * e.fromVlan + e.toVlan }

  lemma PeeredSymmetric(peerings: seq<Peering>, x: int, y: int)
    ensures Peered(peerings, x, y) <==> Peered(peerings, y, x)
  {
    assert forall i :: 0 <= i < |peerings| ==> (Joins(peerings[i], x, y) <==> Joins(peerings[i], y, x));
  }

  lemma PeeredSnoc(peerings: seq<Peering>, p: Peering, x: int, y: int)
    ensures Peered(peerings + [p], x, y) <==> Peered(peerings, x, y) || Joins(p, x, y)
  {
    var all := peerings + [p];
    if Peered(peerings, x, y) {
      var i :| 0 <= i < |peerings| && Joins(peerings[i], x, y);
      assert Joins(all[i], x, y);
    }
    if Joins(p, x, y) {
      assert Joins(all[|peerings|], x, y);
    }
  }

  lemma RepeatKeeps(edges: seq<Edge>, done: seq<Peering>, p: Peering, byGroup: map<int, Interface>)
    requires EdgesOf(edges, done, byGroup) && Peered(done, p.a, p.b)
    ensures EdgesOf(edges, done + [p], byGroup)
    ensures forall x, y :: Peered(done + [p], x, y) <==> Peered(done, x, y)
  {
    PeeredSymmetric(done, p.a, p.b);
    forall x, y ensures Peered(done + [p], x, y) <==> Peered(done, x, y) {
      PeeredSnoc(done, p, x, y);
    }
  }

  lemma EdgeFresh(edges: seq<Edge>, done: seq<Peering>, byGroup: map<int, Interface>, x: int, y: int)
    requires EdgesOf(edges, done, byGroup) && DistinctVlans(byGroup)
    requires x in byGroup && y in byGroup && !Peered(done, x, y)
    ensures EdgeOf(byGroup[x], byGroup[y]) !in edges
  { }

  lemma PairKeeps(edges: seq<Edge>, done: seq<Peering>, p: Peering, byGroup: map<int, Interface>)
    requires EdgesOf(edges, done, byGroup) && DistinctVlans(byGroup)
    requires !Unrealisable(p, byGroup) && !Peered(done, p.a, p.b)
    ensures EdgesOf(edges + [EdgeOf(byGroup[p.a], byGroup[p.b]), EdgeOf(byGroup[p.b], byGroup[p.a])],
                    done + [p], byGroup)
    ensures EdgesOf(edges + [EdgeOf(byGroup[p.b], byGroup[p.a]), EdgeOf(byGroup[p.a], byGroup[p.b])],
                    done + [p], byGroup)
  {
    var ab, ba := EdgeOf(byGroup[p.a], byGroup[p.b]), EdgeOf(byGroup[p.b], byGroup[p.a]);
    PeeredSymmetric(done, p.a, p.b);
    EdgeFresh(edges, done, byGroup, p.a, p.b);
    EdgeFresh(edges, done, byGroup, p.b, p.a);
    assert ab != ba;
    forall x, y ensures Peered(done + [p], x, y) <==> Peered(done, x, y) || Joins(p, x, y) {
      PeeredSnoc(done, p, x, y);
    }
    PairAdded(edges, done, p, byGroup, edges + [ab, ba]);
    PairAdded(edges, done, p, byGroup, edges + [ba, ab]);
  }

  lemma PairAdded(edges: seq<Edge>, done: seq<Peering>, p: Peering, byGroup: map<int, Interface>, all: seq<Edge>)
    requires EdgesOf(edges, done, byGroup) && Distinct(all)
    requires p.a in byGroup && p.b in byGroup
    requires forall e :: e in all <==>
      e in edges || e == EdgeOf(byGroup[p.a], byGroup[p.b]) || e == EdgeOf(byGroup[p.b], byGroup[p.a])
    requires forall x, y :: Peered(done + [p], x, y) <==> Peered(done, x, y) || Joins(p, x, y)
    ensures EdgesOf(all, done + [p], byGroup)
  {
    forall e | e in all
      ensures exists x, y ::
          x in byGroup && y in byGroup && Peered(done + [p], x, y) && e == EdgeOf(byGroup[x], byGroup[y])
    {
      if e in edges {
        var x, y :| x in byGroup && y in byGroup && Peered(done, x, y) && e == EdgeOf(byGroup[x], byGroup[y]);
        assert Peered(done + [p], x, y);
      } else if e == EdgeOf(byGroup[p.a], byGroup[p.b]) {
        assert Joins(p, p.a, p.b);
      } else {
        assert Joins(p, p.b, p.a);
      }
    }
  }

  /** Both directions of every peering once, in VLAN order; refused when one cannot be realised. */
  method BuildPeeringEdges(peerings: seq<Peering>, byGroup: map<int, Interface>) returns (r: Option<seq<Edge>>)
    requires DistinctVlans(byGroup)
    ensures r.None? <==> exists p :: p in peerings && Unrealisable(p, byGroup)
    ensures r.Some? ==> EdgesOf(r.value, peerings, byGroup) && SortedBy(EdgeKey, r.value)
  {
    var seen: set<(int, int)> := {};
    var edges: seq<Edge> := [];
    for i := 0 to |peerings|
      invariant forall p :: p in peerings[..i] ==> !Unrealisable(p, byGroup)
      invariant Seen(seen, peerings[..i])
      invariant EdgesOf(edges, peerings[..i], byGroup)
    {
      var p := peerings[i];
      ghost var done := peerings[..i];
      assert peerings[..i + 1] == done + [p];
      assert p in peerings;
      if p.a == p.b {
        assert Unrealisable(p, byGroup);
        return None;
      }
      var low, high := if p.a < p.b then p.a else p.b, if p.a < p.b then p.b else p.a;
      PeeredSymmetric(done, p.a, p.b);
      if (low, high) in seen {
        RepeatKeeps(edges, done, p, byGroup);
        PeeredRealised(done, p, byGroup);
      } else {
        if low !in byGroup || high !in byGroup {
          return None;
        }
        PairKeeps(edges, done, p, byGroup);
        SeenSnoc(seen, done, p);
        seen := seen + {(low, high)};
        edges := edges + [EdgeOf(byGroup[low], byGroup[high]), EdgeOf(byGroup[high], byGroup[low])];
      }
    }
    assert peerings[..|peerings|] == peerings;
    SortByKeeps(EdgeKey, edges);
    DistinctMultiset(edges);
    DistinctMultiset(SortBy(EdgeKey, edges));
    r := Some(SortBy(EdgeKey, edges));
  }

  lemma PeeredRealised(done: seq<Peering>, p: Peering, byGroup: map<int, Interface>)
    requires Peered(done, p.a, p.b) && forall q :: q in done ==> !Unrealisable(q, byGroup)
    ensures !Unrealisable(p, byGroup)
  {
    var i :| 0 <= i < |done| && Joins(done[i], p.a, p.b);
    assert done[i] in done;
  }

  lemma SeenSnoc(seen: set<(int, int)>, done: seq<Peering>, p: Peering)
    requires Seen(seen, done) && p.a != p.b
    ensures Seen(seen + {(if p.a < p.b then p.a else p.b, if p.a < p.b then p.b else p.a)}, done + [p])
  {
    forall x, y ensures Peered(done + [p], x, y) <==> Peered(done, x, y) || Joins(p, x, y) {
      PeeredSnoc(done, p, x, y);
    }
  }

  /** The edge set is closed under reversal, so replies need no help from connection tracking. */
  lemma EdgesReversible(edges: seq<Edge>, peerings: seq<Peering>, byGroup: map<int, Interface>, e: Edge)
    requires EdgesOf(edges, peerings, byGroup) && e in edges
    ensures Edge(e.toVlan, e.fromVlan, e.toName, e.fromName) in edges
  {
    var x, y :| x in byGroup && y in byGroup && Peered(peerings, x, y) && e == EdgeOf(byGroup[x], byGroup[y]);
    PeeredSymmetric(peerings, x, y);
    assert EdgeOf(byGroup[y], byGroup[x]) in edges;
  }

  // ---- the assembled plan ---------------------------------------------------------------------------------

  datatype Plan = Plan(trunk: string, uplink: string, management: string, interfaces: seq<Interface>, edges: seq<Edge>)

  datatype PlanInput = PlanInput(
    groups: seq<GroupInput>, peerings: seq<Peering>, trunk: string, uplink: string, management: string)

  function VlanKey(i: Interface): int { i.vlan }
  function GroupKey(i: Interface): int { i.groupId }

  ghost predicate GoodDomains(domains: seq<Domain>) {
    exists entries :: AreNormalised(entries, domains) && !SomeClash(entries)
  }

  ghost predicate Represents(i: Interface, g: GroupInput) {
    && i.groupId == g.id && i.vlan == g.vlan && i.subnet == g.subnet
    && forall entries :: AreNormalised(entries, g.domains) ==> SameEntries(i.allowlist, entries)
  }

  ghost predicate ValidInterfaces(interfaces: seq<Interface>, trunk: string, c: Config) {
    && ValidConfig(c)
    && (forall i :: i in interfaces ==> CanonicalInterface(i, trunk, c))
    && KeysDistinct(VlanKey, interfaces) && KeysDistinct(GroupKey, interfaces)
  }

  predicate ValidNames(trunk: string, uplink: string, management: string) {
    && GatewayPaths.IsInterface(trunk) && GatewayPaths.IsInterface(uplink) && GatewayPaths.IsInterface(management)
    && trunk != uplink && trunk != management && uplink != management
  }

  function GroupMap(interfaces: seq<Interface>): map<int, Interface> {
    if interfaces == [] then map[]
    else GroupMap(interfaces[..|interfaces| - 1])[interfaces[|interfaces| - 1].groupId := interfaces[|interfaces| - 1]]
  }

  lemma {:induction false} GroupMapLists(interfaces: seq<Interface>)
    requires KeysDistinct(GroupKey, interfaces)
    ensures ByGroup(interfaces, GroupMap(interfaces))
  {
    if interfaces != [] {
      var n := |interfaces| - 1;
      GroupMapLists(interfaces[..n]);
      assert interfaces == interfaces[..n] + [interfaces[n]];
      forall i | i in interfaces ensures i.groupId in GroupMap(interfaces) && GroupMap(interfaces)[i.groupId] == i {
        if i != interfaces[n] {
          var k :| 0 <= k < n && interfaces[k] == i;
          assert i in interfaces[..n];
          assert GroupKey(interfaces[k]) != GroupKey(interfaces[n]);
        }
      }
    }
  }

  ghost predicate ValidPlan(p: Plan, c: Config) {
    && ValidInterfaces(p.interfaces, p.trunk, c)
    && ValidNames(p.trunk, p.uplink, p.management)
    && SortedBy(VlanKey, p.interfaces)
    && exists peerings :: EdgesOf(p.edges, peerings, GroupMap(p.interfaces))
  }

  ghost predicate PlanOf(p: Plan, input: PlanInput) {
    && |p.interfaces| == |input.groups|
    && (forall g :: g in input.groups ==> exists i :: i in p.interfaces && Represents(i, g))
    && (forall i :: i in p.interfaces ==> exists g :: g in input.groups && Represents(i, g))
    && EdgesOf(p.edges, input.peerings, GroupMap(p.interfaces))
  }

  method BuildInterface(g: GroupInput, trunk: string, c: Config) returns (r: Option<Interface>)
    requires ValidConfig(c)
    ensures r.Some? <==> MatchesSlot(g, c) && GoodDomains(g.domains)
    ensures r.Some? ==> CanonicalInterface(r.value, trunk, c) && Represents(r.value, g)
  {
    if !MatchesSlot(g, c) {
      return None;
    }
    var allowlist := CanonicalDomains(g.domains);
    if allowlist.None? {
      return None;
    }
    var gatewayIp := SlotOf(g.vlan, c).gatewayIp;
    r := Some(Interface(g.id, g.vlan, InterfaceName(trunk, g.vlan), g.subnet, gatewayIp, allowlist.value));
  }

  method BuildInterfaces(groups: seq<GroupInput>, trunk: string, c: Config) returns (r: Option<seq<Interface>>)
    requires ValidConfig(c)
    ensures r.Some? <==> forall g :: g in groups ==> MatchesSlot(g, c) && GoodDomains(g.domains)
    ensures r.Some? ==> |r.value| == |groups| && forall k :: 0 <= k < |groups| ==>
      CanonicalInterface(r.value[k], trunk, c) && Represents(r.value[k], groups[k])
  {
    var interfaces: seq<Interface> := [];
    for k := 0 to |groups|
      invariant |interfaces| == k
      invariant forall j :: 0 <= j < k ==> MatchesSlot(groups[j], c) && GoodDomains(groups[j].domains)
      invariant forall j :: 0 <= j < k ==>
        CanonicalInterface(interfaces[j], trunk, c) && Represents(interfaces[j], groups[j])
    {
      var i := BuildInterface(groups[k], trunk, c);
      if i.None? {
        assert groups[k] in groups;
        return None;
      }
      interfaces := interfaces + [i.value];
    }
    r := Some(interfaces);
  }

  predicate KeysUnique(values: seq<int>) {
    forall i, j :: 0 <= i < j < |values| ==> values[i] != values[j]
  }

  lemma SortedInterfaces(unsorted: seq<Interface>, groups: seq<GroupInput>, trunk: string, c: Config)
    requires ValidConfig(c) && |unsorted| == |groups|
    requires forall k :: 0 <= k < |groups| ==>
      CanonicalInterface(unsorted[k], trunk, c) && Represents(unsorted[k], groups[k])
    ensures var sorted := SortBy(VlanKey, unsorted);
      && |sorted| == |groups| && SortedBy(VlanKey, sorted)
      && (forall i :: i in sorted ==> CanonicalInterface(i, trunk, c))
      && (forall g :: g in groups ==> exists i :: i in sorted && Represents(i, g))
      && (forall i :: i in sorted ==> exists g :: g in groups && Represents(i, g))
  {
    var sorted := SortBy(VlanKey, unsorted);
    SortByKeeps(VlanKey, unsorted);
    forall g | g in groups ensures exists i :: i in sorted && Represents(i, g) {
      var k :| 0 <= k < |groups| && groups[k] == g;
      assert unsorted[k] in sorted;
    }
    forall i | i in sorted ensures CanonicalInterface(i, trunk, c) && exists g :: g in groups && Represents(i, g) {
      var k :| 0 <= k < |unsorted| && unsorted[k] == i;
      assert groups[k] in groups;
    }
  }

  ghost predicate Named(groups: seq<GroupInput>, id: int) {
    exists g :: g in groups && g.id == id
  }

  ghost predicate GoodGroups(groups: seq<GroupInput>, c: Config)
    requires ValidConfig(c)
  {
    && (forall g :: g in groups ==> MatchesSlot(g, c) && GoodDomains(g.domains))
    && NoDuplicates(groups)
  }

  ghost predicate NoDuplicates(groups: seq<GroupInput>) {
    forall i, j :: 0 <= i < j < |groups| ==> groups[i].vlan != groups[j].vlan && groups[i].id != groups[j].id
  }

  predicate UniqueInterfaces(interfaces: seq<Interface>) {
    && KeysUnique(seq(|interfaces|, i requires 0 <= i < |interfaces| => interfaces[i].vlan))
    && KeysUnique(seq(|interfaces|, i requires 0 <= i < |interfaces| => interfaces[i].groupId))
  }

  /** What the inputs must satisfy: canonical slots, consistent allowlists, no duplicates, no dangling peering. */
  ghost predicate Buildable(input: PlanInput, c: Config) {
    && ValidConfig(c)
    && GatewayPaths.NameForm(input.trunk) && GatewayPaths.NameForm(input.uplink)
    && GatewayPaths.NameForm(input.management)
    && input.trunk != input.uplink && input.trunk != input.management && input.uplink != input.management
    && GoodGroups(input.groups, c)
    && PeeringsNamed(input)
  }

  ghost predicate InterfacesOf(interfaces: seq<Interface>, groups: seq<GroupInput>, trunk: string, c: Config) {
    && ValidInterfaces(interfaces, trunk, c) && SortedBy(VlanKey, interfaces)
    && |interfaces| == |groups|
    && (forall g :: g in groups ==> exists i :: i in interfaces && Represents(i, g))
    && (forall i :: i in interfaces ==> exists g :: g in groups && Represents(i, g))
  }

  method BuildSortedInterfaces(groups: seq<GroupInput>, trunk: string, c: Config) returns (r: Option<seq<Interface>>)
    requires ValidConfig(c)
    ensures r.Some? <==> GoodGroups(groups, c)
    ensures r.Some? ==> InterfacesOf(r.value, groups, trunk, c)
  {
    var built := BuildInterfaces(groups, trunk, c);
    if built.None? {
      return None;
    }
    SortedResult(built.value, groups, trunk, c);
    var interfaces := SortBy(VlanKey, built.value);
    if !UniqueInterfaces(interfaces) {
      return None;
    }
    r := Some(interfaces);
  }

  /** The plan stands for exactly the groups and peerings given; exactly the inconsistent inputs are refused. */
  method BuildGatewayPlan(input: PlanInput, c: Config) returns (r: Option<Plan>)
    ensures r.Some? <==> Buildable(input, c)
    ensures r.Some? ==> ValidPlan(r.value, c) && PlanOf(r.value, input)
    ensures r.Some? ==>
      r.value.trunk == input.trunk && r.value.uplink == input.uplink && r.value.management == input.management
  {
    GatewayPaths.NameFormExactly(input.trunk);
    GatewayPaths.NameFormExactly(input.uplink);
    GatewayPaths.NameFormExactly(input.management);
    if !ValidConfig(c) || !ValidNames(input.trunk, input.uplink, input.management) {
      return None;
    }
    var interfaces := BuildSortedInterfaces(input.groups, input.trunk, c);
    if interfaces.None? {
      return None;
    }
    InterfaceMap(interfaces.value, input.groups, input.trunk, c);
    var edges := BuildPeeringEdges(input.peerings, GroupMap(interfaces.value));
    PeeringsRealised(input, interfaces.value);
    if edges.None? {
      return None;
    }
    r := Some(Plan(input.trunk, input.uplink, input.management, interfaces.value, edges.value));
  }

  ghost predicate PeeringsNamed(input: PlanInput) {
    forall p :: p in input.peerings ==> p.a != p.b && Named(input.groups, p.a) && Named(input.groups, p.b)
  }

  lemma PeeringsRealised(input: PlanInput, interfaces: seq<Interface>)
    requires forall id :: id in GroupMap(interfaces) <==> Named(input.groups, id)
    ensures PeeringsNamed(input) <==> !exists p :: p in input.peerings && Unrealisable(p, GroupMap(interfaces))
  { }

  lemma InterfaceMap(interfaces: seq<Interface>, groups: seq<GroupInput>, trunk: string, c: Config)
    requires InterfacesOf(interfaces, groups, trunk, c)
    ensures DistinctVlans(GroupMap(interfaces))
    ensures forall id :: id in GroupMap(interfaces) <==> Named(groups, id)
  {
    GroupMapLists(interfaces);
    GroupMapVlans(interfaces);
    RealisablePeerings(groups, interfaces);
  }

  lemma SortedResult(built: seq<Interface>, groups: seq<GroupInput>, trunk: string, c: Config)
    requires ValidConfig(c) && |built| == |groups|
    requires forall k :: 0 <= k < |groups| ==> CanonicalInterface(built[k], trunk, c) && Represents(built[k], groups[k])
    ensures var sorted := SortBy(VlanKey, built);
      && (UniqueInterfaces(sorted) <==> NoDuplicates(groups))
      && (UniqueInterfaces(sorted) ==> InterfacesOf(sorted, groups, trunk, c))
  {
    var sorted := SortBy(VlanKey, built);
    SortedInterfaces(built, groups, trunk, c);
    UniqueKeys(sorted);
    DistinctGroups(built, groups);
  }

  lemma UniqueKeys(interfaces: seq<Interface>)
    ensures KeysUnique(seq(|interfaces|, i requires 0 <= i < |interfaces| => interfaces[i].vlan)) <==>
      KeysDistinct(VlanKey, interfaces)
    ensures KeysUnique(seq(|interfaces|, i requires 0 <= i < |interfaces| => interfaces[i].groupId)) <==>
      KeysDistinct(GroupKey, interfaces)
  {
    var vlans := seq(|interfaces|, i requires 0 <= i < |interfaces| => interfaces[i].vlan);
    var ids := seq(|interfaces|, i requires 0 <= i < |interfaces| => interfaces[i].groupId);
    assert forall i :: 0 <= i < |interfaces| ==> VlanKey(interfaces[i]) == vlans[i];
    assert forall i :: 0 <= i < |interfaces| ==> GroupKey(interfaces[i]) == ids[i];
  }

  /** Sorting neither hides nor creates a duplicate. */
  lemma DistinctGroups(built: seq<Interface>, groups: seq<GroupInput>)
    requires |built| == |groups| && forall k :: 0 <= k < |groups| ==> Represents(built[k], groups[k])
    ensures var sorted := SortBy(VlanKey, built);
      KeysDistinct(VlanKey, sorted) && KeysDistinct(GroupKey, sorted) <==> NoDuplicates(groups)
  {
    SortByKeeps(VlanKey, built);
    KeysDistinctSame(VlanKey, SortBy(VlanKey, built), built);
    KeysDistinctSame(GroupKey, SortBy(VlanKey, built), built);
    assert forall k :: 0 <= k < |groups| ==> VlanKey(built[k]) == groups[k].vlan && GroupKey(built[k]) == groups[k].id;
  }

  lemma RealisablePeerings(groups: seq<GroupInput>, interfaces: seq<Interface>)
    requires ByGroup(interfaces, GroupMap(interfaces))
    requires forall g :: g in groups ==> exists i :: i in interfaces && Represents(i, g)
    requires forall i :: i in interfaces ==> exists g :: g in groups && Represents(i, g)
    ensures forall id :: id in GroupMap(interfaces) <==> Named(groups, id)
  {
    var m := GroupMap(interfaces);
    forall id ensures id in m <==> Named(groups, id) {
      if id in m {
        var g :| g in groups && Represents(m[id], g);
      }
    }
  }

  lemma GroupMapVlans(interfaces: seq<Interface>)
    requires KeysDistinct(VlanKey, interfaces) && ByGroup(interfaces, GroupMap(interfaces))
    ensures DistinctVlans(GroupMap(interfaces))
  {
    var m := GroupMap(interfaces);
    forall x, y | x in m && y in m && m[x].vlan == m[y].vlan ensures x == y {
      var i :| 0 <= i < |interfaces| && interfaces[i] == m[x];
      var j :| 0 <= j < |interfaces| && interfaces[j] == m[y];
      assert VlanKey(interfaces[i]) == VlanKey(interfaces[j]);
    }
  }
}
