/** The files a Gateway plan is rendered to, against the allowlist of the applier that installs them. */
module GatewayFiles {
  import opened Base
  import opened Decimal
  import opened Slots
  import opened GatewayPaths
  import opened GatewayGuest
  import opened GatewayProtocol
  import opened GatewayHost
  import GP = GatewayPlan

  function NetdevPath(name: string): Path { "/etc/systemd/network/50-" + name + ".netdev" }

  function NetworkPath(name: string): Path { "/etc/systemd/network/50-" + name + ".network" }

  function ParentPathOf(trunk: string): Path { "/etc/systemd/network/50-virtual-lab-" + trunk + ".network" }

  const FIXED: set<Path> := {NFTABLES_PATH, DNSMASQ_PATH, SQUID_PATH, SYSCTL_PATH}

  /** The keys of the rendered bundle; without interfaces the trunk parent gets no unit either. */
  function RenderedPaths(p: GP.Plan): set<Path> {
    FIXED
    + (if p.interfaces == [] then {} else {ParentPathOf(p.trunk)})
    + (set i | i in p.interfaces :: NetdevPath(i.name))
    + (set i | i in p.interfaces :: NetworkPath(i.name))
  }

  lemma FourDigits(vlan: nat)
    requires 1000 <= vlan <= 9999
    ensures |Text(vlan)| == 4 && forall c :: c in Text(vlan) ==> '0' <= c <= '9'
  {
    assert |Text(vlan / 1000)| == 1;
    assert vlan / 10 / 10 / 10 == vlan / 1000;
    assert |Text(vlan / 10 / 10)| == 2;
    assert |Text(vlan / 10)| == 3;
    DecimalIsNumeral(vlan);
  }

  lemma UnitsOf(p: GP.Plan, i: GP.Interface)
    requires GP.ValidPlan(p, APPROVED) && i in p.interfaces
    ensures UnitPath(NetdevPath(i.name), p.trunk, Text(i.vlan), ".netdev")
    ensures UnitPath(NetworkPath(i.name), p.trunk, Text(i.vlan), ".network")
    ensures i.name == p.trunk + "." + Text(i.vlan)
  {
    FourDigits(i.vlan);
    NameFormExactly(p.trunk);
    var prefix := "/etc/systemd/network/50-";
    assert prefix + i.name + ".netdev" == prefix + p.trunk + "." + Text(i.vlan) + ".netdev";
    assert prefix + i.name + ".network" == prefix + p.trunk + "." + Text(i.vlan) + ".network";
  }

  lemma ParentAllowed(trunk: string)
    requires IsInterface(trunk)
    ensures Allowed(ParentPathOf(trunk)) && Variable(ParentPathOf(trunk))
  {
    NameFormExactly(trunk);
    assert ParentPath(ParentPathOf(trunk), trunk);
    ParentExactly(ParentPathOf(trunk));
  }

  lemma UnitsAllowed(p: GP.Plan, i: GP.Interface)
    requires GP.ValidPlan(p, APPROVED) && i in p.interfaces
    ensures Allowed(NetdevPath(i.name)) && Allowed(NetworkPath(i.name)) && LinkOf(NetdevPath(i.name)) == Some(i.name)
  {
    UnitsOf(p, i);
    UnitFits(NetdevPath(i.name), p.trunk, Text(i.vlan), ".netdev");
    UnitFits(NetworkPath(i.name), p.trunk, Text(i.vlan), ".network");
  }

  /** The applier accepts every path of every plan the backend can build. */
  lemma RenderedAllowed(p: GP.Plan)
    requires GP.ValidPlan(p, APPROVED)
    ensures forall path :: path in RenderedPaths(p) ==> Allowed(path)
  {
    forall path | path in RenderedPaths(p) ensures Allowed(path) { OneAllowed(p, path); }
  }

  lemma OneAllowed(p: GP.Plan, path: Path)
    requires GP.ValidPlan(p, APPROVED) && path in RenderedPaths(p)
    ensures Allowed(path)
  {
    if path in FIXED {
      assert Exact(path);
    } else if path == ParentPathOf(p.trunk) {
      ParentAllowed(p.trunk);
    } else {
      var i :| i in p.interfaces && (path == NetdevPath(i.name) || path == NetworkPath(i.name));
      UnitsAllowed(p, i);
    }
  }

  /** So a rendered bundle is a request the applier answers, if its validators pass it and nothing dies. */
  lemma RenderedAnswers(p: GP.Plan, req: Request, listing: seq<Path>, id: string, crash: nat)
    requires GP.ValidPlan(p, APPROVED) && req.files.Keys == RenderedPaths(p) && 60 <= req.rollbackSeconds <= 1800
    requires |req.revision| == 64 && forall c :: c in req.revision ==> '0' <= c <= '9' || 'a' <= c <= 'f'
    ensures Answers(req, listing, true, id, crash) <==> crash >= |Program(req, listing, true, id, false)|
  {
    RenderedAllowed(p);
    assert SQUID_PATH in req.files.Keys;
  }

  lemma NetdevOnly(p: GP.Plan, path: Path)
    requires GP.ValidPlan(p, APPROVED) && path in RenderedPaths(p) && LinkOf(path).Some?
    ensures exists i :: i in p.interfaces && path == NetdevPath(i.name)
  {
    OtherSuffixes(p.trunk, path);
    forall i | i in p.interfaces ensures path != NetworkPath(i.name) { OtherSuffixes(i.name, path); }
    NetdevLeft(p, path);
  }

  lemma NetdevLeft(p: GP.Plan, path: Path)
    requires path in RenderedPaths(p) && path !in FIXED && path != ParentPathOf(p.trunk)
    requires forall i :: i in p.interfaces ==> path != NetworkPath(i.name)
    ensures exists i :: i in p.interfaces && path == NetdevPath(i.name)
  { }

  lemma EndsInV(path: Path)
    requires LinkOf(path).Some?
    ensures path != "" && path[|path| - 1] == 'v'
  {
    assert path[|path| - 7..] == ".netdev";
    assert path[|path| - 1] == path[|path| - 7..][6];
  }

  lemma OtherSuffixes(name: string, path: Path)
    requires LinkOf(path).Some?
    ensures path !in FIXED && path != ParentPathOf(name) && path != NetworkPath(name)
  {
    EndsInV(path);
    FixedSuffixes();
    var unit, parent := NetworkPath(name), ParentPathOf(name);
    assert unit[|unit| - 1] == 'k' && parent[|parent| - 1] == 'k';
  }

  lemma FixedSuffixes()
    ensures forall path :: path in FIXED ==> path != "" && path[|path| - 1] != 'v'
  { }

  /** Installing a rendered bundle leaves the `.netdev` files of exactly the plan's interfaces, whatever was there. */
  lemma RenderedLinks(p: GP.Plan, req: Request, files: Files)
    requires GP.ValidPlan(p, APPROVED) && req.files.Keys == RenderedPaths(p)
    ensures LinksOf(Target(files, req)) == set i | i in p.interfaces :: i.name
  {
    var after := Target(files, req);
    forall link | link in LinksOf(after) ensures exists i :: i in p.interfaces && i.name == link {
      var path :| path in after && LinkOf(path) == Some(link);
      assert path in req.files.Keys;
      NetdevOnly(p, path);
      var i :| i in p.interfaces && path == NetdevPath(i.name);
      UnitsAllowed(p, i);
    }
    forall i | i in p.interfaces ensures i.name in LinksOf(after) {
      UnitsAllowed(p, i);
      assert NetdevPath(i.name) in req.files.Keys && NetdevPath(i.name) in after;
    }
  }
}
