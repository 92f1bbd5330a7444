/** When a new Squid file may be reloaded, and when only a restart will do. */
module SquidRestart {
  import opened Base
  import opened Slots
  import opened DomainNames
  import opened Allowlists
  import opened GatewayPlan
  import opened Squid
  import opened SquidMeaning

  /** The group names a line's text carries: `lab` and exactly four digits before an underscore. */
  function Names(l: Line): set<int> {
    match l
    case AclSource(v, _) => Named(v)
    case AclDomain(v, _) => Named(v)
    case AclSni(v, _) => Named(v)
    case AllowConnect(v) => Named(v)
    case AllowDomain(v) => Named(v)
    case DenySource(v) => Named(v)
    case Splice(v) => Named(v)
    case _ => {}
  }

  function Named(vlan: int): set<int> {
    if 1000 <= vlan <= 9999 then {vlan} else {}
  }

  function Remaining(file: seq<Line>): set<int> {
    set l, v | l in file && v in Names(l) :: v
  }

  /** Losing a line is harmless only when it names groups and none of them is left. */
  predicate Harmful(l: Line, next: seq<Line>) {
    Names(l) == {} || exists v :: v in Names(l) && v in Remaining(next)
  }

  ghost predicate MustRestart(live: seq<Line>, next: seq<Line>) {
    exists l :: l in live && l !in next && Harmful(l, next)
  }

  method NeedsSquidRestart(live: Option<seq<Line>>, next: seq<Line>) returns (restart: bool)
    ensures restart <==> live.Some? && MustRestart(live.value, next)
  {
    if live.None? {
      return false;
    }
    var kept := set l | l in next;
    var remaining := Remaining(next);
    for k := 0 to |live.value|
      invariant forall j :: 0 <= j < k ==> live.value[j] in next || !Harmful(live.value[j], next)
    {
      var line := live.value[k];
      if line in kept {
        continue;
      }
      var groups := Names(line);
      if groups == {} || exists v :: v in groups && v in remaining {
        assert line in live.value;
        return true;
      }
    }
    return false;
  }

  // ---- what survives between two rendered files -----------------------------------------------------

  lemma PatternInjective(d: Domain, e: Domain)
    requires IsDomainName(d.name) && IsDomainName(e.name) && Pattern(d) == Pattern(e)
    ensures d == e
  {
    assert ("." + d.name)[1..] == d.name && ("." + e.name)[1..] == e.name;
  }

  lemma PatternsInjective(a: seq<Domain>, b: seq<Domain>)
    requires ValidAllowlist(a) && ValidAllowlist(b) && Patterns(a) == Patterns(b)
    ensures a == b
  {
    assert |a| == |Patterns(a)| && |b| == |Patterns(b)|;
    forall k | 0 <= k < |a| ensures a[k] == b[k] {
      assert a[k] in a && b[k] in b;
      assert Patterns(a)[k] == Pattern(a[k]) && Patterns(b)[k] == Pattern(b[k]);
      PatternInjective(a[k], b[k]);
    }
  }

  lemma OwnNames(i: Interface, l: Line)
    requires 1000 <= i.vlan <= 9999 && OwnLine(i, l) && l != Blank
    ensures Names(l) == {i.vlan}
  { }

  lemma SharedNames(s: Settings, l: Line)
    requires SharedLine(s, l)
    ensures Names(l) == {}
  { }

  ghost predicate FourDigits(interfaces: seq<Interface>) {
    forall i :: i in interfaces ==> 1000 <= i.vlan <= 9999
  }

  lemma RemainingGroups(s: Settings, interfaces: seq<Interface>, v: int)
    requires FourDigits(interfaces)
    ensures v in Remaining(File(s, interfaces)) <==> exists i :: i in interfaces && i.vlan == v
  {
    var file := File(s, interfaces);
    if v in Remaining(file) {
      var l :| l in file && v in Names(l);
      FileMembers(s, interfaces, l);
      if SharedLine(s, l) {
        SharedNames(s, l);
        assert false;
      }
      var i :| i in interfaces && OwnLine(i, l);
      OwnNames(i, l);
    }
    if i :| i in interfaces && i.vlan == v {
      var l := AclSource(i.vlan, i.subnet);
      assert Block(i)[0] == l;
      FileMembers(s, interfaces, l);
      assert v in Names(l);
    }
  }

  /** Whether a group that stays keeps every line it had. */
  ghost predicate LinesKept(i: Interface, j: Interface) {
    i.allowlist == [] || i.allowlist == j.allowlist
  }

  lemma KeptExactly(i: Interface, j: Interface)
    requires i.vlan == j.vlan && i.subnet == j.subnet && ValidAllowlist(i.allowlist) && ValidAllowlist(j.allowlist)
    ensures LinesKept(i, j) <==> forall l :: OwnLine(i, l) ==> OwnLine(j, l)
  {
    if i.allowlist != [] && forall l :: OwnLine(i, l) ==> OwnLine(j, l) {
      var l := AclDomain(i.vlan, Patterns(i.allowlist));
      OwnDefinitions(i, l);
      OwnDefinitions(j, l);
      PatternsInjective(i.allowlist, j.allowlist);
    }
  }

  lemma SharedKept(p: Settings, q: Settings)
    ensures p == q <==> forall l :: SharedLine(p, l) ==> SharedLine(q, l)
  {
    if forall l :: SharedLine(p, l) ==> SharedLine(q, l) {
      OwnSettings(p, p);
      assert SharedLine(q, InternalPort(p.internalPort)) && SharedLine(q, HttpPort(p.httpPort));
      assert SharedLine(q, HttpsPort(p.httpsPort)) && SharedLine(q, Resolvers(p.resolvers));
      OwnSettings(p, q);
    }
  }

  lemma OwnSettings(p: Settings, q: Settings)
    ensures SharedLine(q, InternalPort(p.internalPort)) <==> p.internalPort == q.internalPort
    ensures SharedLine(q, HttpPort(p.httpPort)) <==> p.httpPort == q.httpPort
    ensures SharedLine(q, HttpsPort(p.httpsPort)) <==> p.httpsPort == q.httpsPort
    ensures SharedLine(q, Resolvers(p.resolvers)) <==> p.resolvers == q.resolvers
  {
    assert Header(q)[0] == InternalPort(q.internalPort) && Header(q)[2] == HttpPort(q.httpPort);
    assert Header(q)[3] == HttpsPort(q.httpsPort) && Header(q)[8] == Resolvers(q.resolvers);
  }

  ghost predicate GroupsKeep(before: seq<Interface>, after: seq<Interface>) {
    forall i, j :: i in before && j in after && i.vlan == j.vlan ==> LinesKept(i, j)
  }

  lemma OwnInFile(s: Settings, interfaces: seq<Interface>, j: Interface, l: Line)
    requires FourDigits(interfaces) && KeysDistinct(VlanKey, interfaces) && j in interfaces
    requires Names(l) == {j.vlan}
    ensures l in File(s, interfaces) <==> OwnLine(j, l)
  {
    FileMembers(s, interfaces, l);
    if SharedLine(s, l) { SharedNames(s, l); }
    forall k | k in interfaces && OwnLine(k, l) ensures k == j {
      OwnNames(k, l);
      OneInterface(interfaces, j, k);
    }
  }

  lemma SharedInFile(s: Settings, interfaces: seq<Interface>, l: Line)
    requires FourDigits(interfaces) && Names(l) == {}
    ensures l in File(s, interfaces) <==> SharedLine(s, l)
  {
    FileMembers(s, interfaces, l);
    forall k | k in interfaces && OwnLine(k, l) ensures SharedLine(s, l) {
      if l != Blank { OwnNames(k, l); }
    }
  }

  // ---- main results ------------------------------------------------------------------------------------

  /** Between rendered files no restart is needed exactly when the global settings are the same and every
      group that stays had no allowlist or keeps the one it had; released groups never force a restart. */
  lemma RestartExact(p: Settings, before: seq<Interface>, q: Settings, after: seq<Interface>, trunk: string,
                     newTrunk: string, c: Config)
    requires ValidInterfaces(before, trunk, c) && ValidInterfaces(after, newTrunk, c)
    requires FourDigits(before) && FourDigits(after)
    ensures !MustRestart(File(p, before), File(q, after)) <==> p == q && GroupsKeep(before, after)
  {
    var live, next := File(p, before), File(q, after);
    SharedKept(p, q);
    if !MustRestart(live, next) {
      forall l | SharedLine(p, l) ensures SharedLine(q, l) {
        SharedNames(p, l);
        FileMembers(p, before, l);
        SharedInFile(q, after, l);
        if l !in next { assert Harmful(l, next); }
      }
      forall i, j | i in before && j in after && i.vlan == j.vlan ensures LinesKept(i, j) {
        StayingKeeps(p, before, q, after, i, j);
      }
    }
    if p == q && GroupsKeep(before, after) {
      forall l | l in live && l !in next ensures !Harmful(l, next) {
        DroppedHarmless(p, before, after, l, c, trunk, newTrunk);
      }
    }
  }

  lemma StayingKeeps(p: Settings, before: seq<Interface>, q: Settings, after: seq<Interface>, i: Interface,
                     j: Interface)
    requires !MustRestart(File(p, before), File(q, after))
    requires FourDigits(before) && FourDigits(after) && KeysDistinct(VlanKey, after)
    requires i in before && j in after && i.vlan == j.vlan && i.subnet == j.subnet
    requires ValidAllowlist(i.allowlist) && ValidAllowlist(j.allowlist)
    ensures LinesKept(i, j)
  {
    KeptExactly(i, j);
    forall l | OwnLine(i, l) ensures OwnLine(j, l) {
      if l != Blank {
        OwnNames(i, l);
        FileMembers(p, before, l);
        RemainingGroups(q, after, j.vlan);
        assert j.vlan in Names(l);
        assert Harmful(l, File(q, after));
        OwnInFile(q, after, j, l);
      }
    }
  }

  lemma DroppedHarmless(s: Settings, before: seq<Interface>, after: seq<Interface>, l: Line, c: Config,
                        trunk: string, newTrunk: string)
    requires ValidInterfaces(before, trunk, c) && ValidInterfaces(after, newTrunk, c)
    requires FourDigits(before) && FourDigits(after) && GroupsKeep(before, after)
    requires l in File(s, before) && l !in File(s, after)
    ensures !Harmful(l, File(s, after))
  {
    FileMembers(s, before, l);
    FileMembers(s, after, l);
    var i :| i in before && OwnLine(i, l);
    OwnNames(i, l);
    RemainingGroups(s, after, i.vlan);
    forall j | j in after ensures j.vlan != i.vlan {
      if j.vlan == i.vlan { KeptExactly(i, j); }
    }
  }

  /** A reload revokes nothing from a group that stays: whatever its members could reach, they still can. */
  lemma ReloadRevokesNothing(p: Settings, before: seq<Interface>, q: Settings, after: seq<Interface>, trunk: string,
                             newTrunk: string, c: Config, i: Interface, j: Interface, source: nat, port: nat,
                               host: string, sni: Option<string>)
    requires ValidInterfaces(before, trunk, c) && ValidInterfaces(after, newTrunk, c)
    requires FourDigits(before) && FourDigits(after)
    requires !MustRestart(File(p, before), File(q, after))
    requires i in before && j in after && i.vlan == j.vlan && Contains(i.subnet, source)
    ensures Served(File(p, before), Request(source, false, port, host)) ==>
      Served(File(q, after), Request(source, false, port, host))
    ensures Tunnelled(File(p, before), source, port, host, sni) ==> Tunnelled(File(q, after), source, port, host, sni)
  {
    RestartExact(p, before, q, after, trunk, newTrunk, c);
    assert LinesKept(i, j);
    PlainRequests(p, before, trunk, c, i, Request(source, false, port, host));
    PlainRequests(q, after, newTrunk, c, j, Request(source, false, port, host));
    TlsConnections(p, before, trunk, c, i, source, port, host, sni);
    TlsConnections(q, after, newTrunk, c, j, source, port, host, sni);
  }
}
