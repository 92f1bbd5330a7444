/** The rendered Squid file admits exactly what the allowlist of the requesting group says. */
module SquidMeaning {
  import opened Base
  import opened Slots
  import opened Strings
  import opened DomainNames
  import opened Allowlists
  import opened GatewayPlan
  import opened Squid

  // ---- what an allowlist is meant to admit ---------------------------------------------------------

  /** Label by label, `host` lies strictly below `name`. */
  ghost predicate Below(host: string, name: string) {
    exists k :: 0 < k <= |Split(host, '.')| && Split(host, '.')[k..] == Split(name, '.')
  }

  ghost predicate Covers(d: Domain, host: string) {
    host == d.name || (d.subdomains && Below(host, d.name))
  }

  ghost predicate Admits(allowlist: seq<Domain>, host: string) {
    exists d :: d in allowlist && Covers(d, host)
  }

  /** The textual suffix test on ".name" is the label-wise one: "notexample.org" is not below "example.org". */
  lemma SuffixIsBelow(host: string, name: string)
    ensures EndsWith(host, "." + name) <==> Below(host, name)
  {
    if EndsWith(host, "." + name) { SuffixBelow(host, name); }
    if Below(host, name) { BelowSuffix(host, name); }
  }

  lemma SuffixBelow(host: string, name: string)
    requires EndsWith(host, "." + name)
    ensures Below(host, name)
  {
    var front := host[..|host| - |name| - 1];
    assert host == front + ['.'] + name;
    SplitAppend(front, name, '.');
    var k := |Split(front, '.')|;
    assert Split(host, '.')[k..] == Split(name, '.');
  }

  lemma BelowSuffix(host: string, name: string)
    requires Below(host, name)
    ensures EndsWith(host, "." + name)
  {
    var labels, tail := Split(host, '.'), "." + name;
    var k :| 0 < k <= |labels| && labels[k..] == Split(name, '.');
    assert labels == labels[..k] + labels[k..];
    JoinAppend(labels[..k], labels[k..], '.');
    JoinSplit(host, '.');
    JoinSplit(name, '.');
    assert host == Join(labels[..k], '.') + tail;
    assert host[|host| - |tail|..] == tail;
  }

  lemma PatternMeaning(d: Domain, host: string)
    requires IsDomainName(d.name)
    ensures PatternMatches(Pattern(d), host) <==> Covers(d, host)
  {
    SuffixIsBelow(host, d.name);
    assert ("." + d.name)[1..] == d.name;
  }

  lemma PatternsMeaning(allowlist: seq<Domain>, host: string)
    requires ValidAllowlist(allowlist)
    ensures AnyMatches(Patterns(allowlist), host) <==> Admits(allowlist, host)
  {
    forall k | 0 <= k < |allowlist|
      ensures PatternMatches(Patterns(allowlist)[k], host) <==> Covers(allowlist[k], host)
    {
      assert allowlist[k] in allowlist;
      PatternMeaning(allowlist[k], host);
    }
    if AnyMatches(Patterns(allowlist), host) {
      var k :| 0 <= k < |allowlist| && PatternMatches(Patterns(allowlist)[k], host);
      assert allowlist[k] in allowlist;
    }
  }

  // ---- the names a file defines ----------------------------------------------------------------------

  lemma OneInterface(interfaces: seq<Interface>, i: Interface, j: Interface)
    requires KeysDistinct(VlanKey, interfaces) && i in interfaces && j in interfaces && i.vlan == j.vlan
    ensures i == j
  {
    KeysDistinctElements(VlanKey, interfaces);
    assert VlanKey(i) == VlanKey(j);
  }

  predicate Defines(l: Line) {
    l.AclSource? || l.AclDomain? || l.AclSni?
  }

  lemma OwnVlan(i: Interface, l: Line)
    requires Defines(l) && OwnLine(i, l)
    ensures l.vlan == i.vlan
  { }

  lemma OwnLines(s: Settings, interfaces: seq<Interface>, i: Interface, l: Line)
    requires KeysDistinct(VlanKey, interfaces) && i in interfaces
    requires Defines(l) && l.vlan == i.vlan
    ensures l in File(s, interfaces) <==> OwnLine(i, l)
  {
    FileMembers(s, interfaces, l);
    assert !SharedLine(s, l);
    forall j | j in interfaces && OwnLine(j, l) ensures j == i {
      OwnVlan(j, l);
      OneInterface(interfaces, i, j);
    }
  }

  /** Each name a group's lines refer to is defined once, by that group. */
  lemma OwnDefinitions(i: Interface, l: Line)
    requires Defines(l)
    ensures l.AclSource? ==> (OwnLine(i, l) <==> l == AclSource(i.vlan, i.subnet))
    ensures l.AclDomain? ==> (OwnLine(i, l) <==> i.allowlist != [] && l == AclDomain(i.vlan, Patterns(i.allowlist)))
    ensures l.AclSni? ==> (OwnLine(i, l) <==> i.allowlist != [] && l == AclSni(i.vlan, Patterns(i.allowlist)))
  {
    assert Block(i)[0] == AclSource(i.vlan, i.subnet);
    if i.allowlist != [] {
      assert Block(i)[2] == AclDomain(i.vlan, Patterns(i.allowlist));
      assert Block(i)[3] == AclSni(i.vlan, Patterns(i.allowlist));
    }
  }

  lemma SourceName(s: Settings, interfaces: seq<Interface>, i: Interface, source: nat)
    requires KeysDistinct(VlanKey, interfaces) && i in interfaces
    ensures FromSource(File(s, interfaces), i.vlan, source) <==> Contains(i.subnet, source)
  {
    forall l: Line | l.AclSource? && l.vlan == i.vlan
      ensures l in File(s, interfaces) <==> l == AclSource(i.vlan, i.subnet)
    {
      OwnLines(s, interfaces, i, l);
      OwnDefinitions(i, l);
    }
    assert AclSource(i.vlan, i.subnet) in File(s, interfaces);
  }

  lemma DomainNamed(s: Settings, interfaces: seq<Interface>, i: Interface, host: string)
    requires KeysDistinct(VlanKey, interfaces) && i in interfaces && ValidAllowlist(i.allowlist)
    ensures ToDomain(File(s, interfaces), i.vlan, host) <==> Admits(i.allowlist, host)
  {
    PatternsMeaning(i.allowlist, host);
    var own := AclDomain(i.vlan, Patterns(i.allowlist));
    forall l: Line | l.AclDomain? && l.vlan == i.vlan
      ensures l in File(s, interfaces) <==> i.allowlist != [] && l == own
    {
      OwnLines(s, interfaces, i, l);
      OwnDefinitions(i, l);
    }
    assert own in File(s, interfaces) <==> i.allowlist != [];
  }

  lemma ServerNamed(s: Settings, interfaces: seq<Interface>, i: Interface, sni: Option<string>)
    requires KeysDistinct(VlanKey, interfaces) && i in interfaces && ValidAllowlist(i.allowlist)
    ensures ToName(File(s, interfaces), i.vlan, sni) <==> sni.Some? && Admits(i.allowlist, sni.value)
  {
    if sni.Some? {
      PatternsMeaning(i.allowlist, sni.value);
      var own := AclSni(i.vlan, Patterns(i.allowlist));
      forall l: Line | l.AclSni? && l.vlan == i.vlan
        ensures l in File(s, interfaces) <==> i.allowlist != [] && l == own
      {
        OwnLines(s, interfaces, i, l);
        OwnDefinitions(i, l);
      }
      assert own in File(s, interfaces) <==> i.allowlist != [];
    }
  }

  // ---- http_access ---------------------------------------------------------------------------------------

  ghost predicate PortsAllow(r: Request) {
    r.port == 443 || (r.port == 80 && !r.connect)
  }

  lemma AccessCons(l: Line, rest: seq<Line>, file: seq<Line>, r: Request)
    ensures Access([l] + rest, file, r) ==
      if AccessRule(l, file, r).Some? then AccessRule(l, file, r) else Access(rest, file, r)
  {
    assert ([l] + rest)[1..] == rest;
  }

  lemma AllowRules(i: Interface, deny: seq<Line>, file: seq<Line>, r: Request) returns (rules: seq<Line>)
    ensures var patterns := Patterns(i.allowlist);
      rules == [AclDomain(i.vlan, patterns)] + ([AclSni(i.vlan, patterns)] + ([AllowDomain(i.vlan)] + deny))
    ensures Access(rules, file, r) ==
      if FromSource(file, i.vlan, r.source) && ToDomain(file, i.vlan, r.host) then Some(true) else Access(deny, file, r)
  {
    var patterns := Patterns(i.allowlist);
    var allow := [AllowDomain(i.vlan)] + deny;
    AccessCons(AllowDomain(i.vlan), deny, file, r);
    AccessCons(AclSni(i.vlan, patterns), allow, file, r);
    rules := [AclDomain(i.vlan, patterns)] + ([AclSni(i.vlan, patterns)] + allow);
    AccessCons(AclDomain(i.vlan, patterns), [AclSni(i.vlan, patterns)] + allow, file, r);
  }

  lemma BlockRules(i: Interface, file: seq<Line>, r: Request)
    requires PortsAllow(r)
    ensures Access(Block(i), file, r) ==
      if !FromSource(file, i.vlan, r.source) then None
      else Some(r.connect || (i.allowlist != [] && ToDomain(file, i.vlan, r.host)))
  {
    var deny := [DenySource(i.vlan)] + [Blank];
    AccessCons(DenySource(i.vlan), [Blank], file, r);
    var rules := deny;
    if i.allowlist != [] {
      rules := AllowRules(i, deny, file, r);
    }
    AccessCons(AllowConnect(i.vlan), rules, file, r);
    AccessCons(AclSource(i.vlan, i.subnet), [AllowConnect(i.vlan)] + rules, file, r);
    assert Block(i) == [AclSource(i.vlan, i.subnet)] + ([AllowConnect(i.vlan)] + rules);
  }

  lemma BlockAccess(s: Settings, interfaces: seq<Interface>, i: Interface, r: Request)
    requires KeysDistinct(VlanKey, interfaces) && i in interfaces && ValidAllowlist(i.allowlist) && PortsAllow(r)
    ensures Access(Block(i), File(s, interfaces), r) ==
      if Contains(i.subnet, r.source) then Some(r.connect || Admits(i.allowlist, r.host)) else None
  {
    SourceName(s, interfaces, i, r.source);
    DomainNamed(s, interfaces, i, r.host);
    BlockRules(i, File(s, interfaces), r);
  }

  lemma Apart(interfaces: seq<Interface>, trunk: string, c: Config, i: Interface, j: Interface, source: nat)
    requires ValidInterfaces(interfaces, trunk, c) && i in interfaces && j in interfaces
    requires Contains(i.subnet, source) && Contains(j.subnet, source)
    ensures i == j
  {
    SlotsDisjoint(i.vlan, j.vlan, c, source);
    OneInterface(interfaces, i, j);
  }

  lemma BlocksStep(s: Settings, interfaces: seq<Interface>, n: nat, r: Request)
    requires n < |interfaces|
    ensures var file := File(s, interfaces);
      var before := Access(Blocks(interfaces[..n]), file, r);
      Access(Blocks(interfaces[..n + 1]), file, r) ==
        if before.Some? then before else Access(Block(interfaces[n]), file, r)
  {
    assert interfaces[..n + 1][..n] == interfaces[..n];
    AccessConcat(Blocks(interfaces[..n]), Block(interfaces[n]), File(s, interfaces), r);
  }

  /** The answer of the first of some groups that the source belongs to. */
  ghost function FirstAnswer(interfaces: seq<Interface>, n: nat, r: Request): Option<bool>
    requires n <= |interfaces|
  {
    if n == 0 then None
    else
      var before, last := FirstAnswer(interfaces, n - 1, r), interfaces[n - 1];
      if before.Some? then before
      else if Contains(last.subnet, r.source) then Some(r.connect || Admits(last.allowlist, r.host)) else None
  }

  lemma {:induction false} BlocksAnswer(s: Settings, interfaces: seq<Interface>, n: nat, r: Request)
    requires KeysDistinct(VlanKey, interfaces) && n <= |interfaces| && PortsAllow(r)
    requires forall i :: i in interfaces ==> ValidAllowlist(i.allowlist)
    ensures Access(Blocks(interfaces[..n]), File(s, interfaces), r) == FirstAnswer(interfaces, n, r)
  {
    if n > 0 {
      BlocksStep(s, interfaces, n - 1, r);
      BlockAccess(s, interfaces, interfaces[n - 1], r);
      BlocksAnswer(s, interfaces, n - 1, r);
    }
  }

  lemma {:induction false} NoAnswer(interfaces: seq<Interface>, n: nat, r: Request)
    requires n <= |interfaces| && forall k :: 0 <= k < n ==> !Contains(interfaces[k].subnet, r.source)
    ensures FirstAnswer(interfaces, n, r) == None
  {
    if n > 0 { NoAnswer(interfaces, n - 1, r); }
  }

  lemma {:induction false} OwnAnswer(interfaces: seq<Interface>, n: nat, k: nat, r: Request)
    requires k < n <= |interfaces| && Contains(interfaces[k].subnet, r.source)
    requires forall j :: 0 <= j < k ==> !Contains(interfaces[j].subnet, r.source)
    ensures FirstAnswer(interfaces, n, r) == Some(r.connect || Admits(interfaces[k].allowlist, r.host))
  {
    if k < n - 1 {
      OwnAnswer(interfaces, n - 1, k, r);
    } else {
      NoAnswer(interfaces, k, r);
    }
  }

  /** Only the block of the group the source belongs to can decide. */
  lemma BlocksAccess(s: Settings, interfaces: seq<Interface>, trunk: string, c: Config, i: Interface, r: Request)
    requires ValidInterfaces(interfaces, trunk, c) && PortsAllow(r)
    requires i in interfaces && Contains(i.subnet, r.source)
    ensures Access(Blocks(interfaces), File(s, interfaces), r) == Some(r.connect || Admits(i.allowlist, r.host))
  {
    var k :| 0 <= k < |interfaces| && interfaces[k] == i;
    forall j | 0 <= j < k ensures !Contains(interfaces[j].subnet, r.source) {
      assert VlanKey(interfaces[j]) != VlanKey(interfaces[k]);
      if Contains(interfaces[j].subnet, r.source) {
        Apart(interfaces, trunk, c, i, interfaces[j], r.source);
      }
    }
    OwnAnswer(interfaces, |interfaces|, k, r);
    BlocksAnswer(s, interfaces, |interfaces|, r);
    assert interfaces[..|interfaces|] == interfaces;
  }

  lemma BlocksSilent(s: Settings, interfaces: seq<Interface>, trunk: string, c: Config, r: Request)
    requires ValidInterfaces(interfaces, trunk, c) && PortsAllow(r)
    requires forall i :: i in interfaces ==> !Contains(i.subnet, r.source)
    ensures Access(Blocks(interfaces), File(s, interfaces), r) == None
  {
    NoAnswer(interfaces, |interfaces|, r);
    BlocksAnswer(s, interfaces, |interfaces|, r);
    assert interfaces[..|interfaces|] == interfaces;
  }

  lemma HeaderAccess(s: Settings, file: seq<Line>, r: Request)
    ensures Access(Header(s), file, r) == if PortsAllow(r) then None else Some(false)
  {
    var ports := [InternalPort(s.internalPort), Blank, HttpPort(s.httpPort), HttpsPort(s.httpsPort), Blank];
    var guards := [DenyUnsafePorts, DenyConnectElsewhere];
    var rest := [Blank, Resolvers(s.resolvers), Blank];
    assert Header(s) == ports + (guards + rest);
    AccessConcat(ports, guards + rest, file, r);
    AccessConcat(guards, rest, file, r);
    Silent(ports, file, r);
    Silent(rest, file, r);
    assert guards[1..] == [DenyConnectElsewhere];
  }

  lemma {:induction false} Silent(lines: seq<Line>, file: seq<Line>, r: Request)
    requires forall l :: l in lines ==> AccessRule(l, file, r).None?
    ensures Access(lines, file, r).None?
  {
    if lines != [] {
      Silent(lines[1..], file, r);
    }
  }

  lemma FileAccess(s: Settings, interfaces: seq<Interface>, r: Request)
    ensures var file := File(s, interfaces);
      Served(file, r) <==> PortsAllow(r) && Access(Blocks(interfaces), file, r) == Some(true)
  {
    var file, rest := File(s, interfaces), Behind(interfaces);
    FileShape(s, interfaces);
    AccessConcat(Header(s), Blocks(interfaces) + ([DenyAll] + rest), file, r);
    AccessConcat(Blocks(interfaces), [DenyAll] + rest, file, r);
    HeaderAccess(s, file, r);
    AccessCons(DenyAll, rest, file, r);
  }

  function Behind(interfaces: seq<Interface>): seq<Line> {
    [Blank, PeekStep1] + Splices(interfaces) + [TerminateAll, Blank]
  }

  lemma FileShape(s: Settings, interfaces: seq<Interface>)
    ensures File(s, interfaces) == Header(s) + (Blocks(interfaces) + ([DenyAll] + Behind(interfaces)))
  {
    assert [DenyAll, Blank, PeekStep1] == [DenyAll] + [Blank, PeekStep1];
  }

  /** A group's own requests, of either kind. */
  lemma OwnRequests(s: Settings, interfaces: seq<Interface>, trunk: string, c: Config, i: Interface, r: Request)
    requires ValidInterfaces(interfaces, trunk, c) && i in interfaces && Contains(i.subnet, r.source)
    ensures Served(File(s, interfaces), r) <==> PortsAllow(r) && (r.connect || Admits(i.allowlist, r.host))
  {
    FileAccess(s, interfaces, r);
    if PortsAllow(r) {
      BlocksAccess(s, interfaces, trunk, c, i, r);
    }
  }

  // ---- ssl_bump -----------------------------------------------------------------------------------------

  lemma {:induction false} NoBump(lines: seq<Line>, file: seq<Line>, source: nat, step: nat, sni: Option<string>)
    requires forall l :: l in lines ==> BumpRule(l, file, source, step, sni).None?
    ensures BumpAction(lines, file, source, step, sni).None?
  {
    if lines != [] {
      NoBump(lines[1..], file, source, step, sni);
    }
  }

  ghost predicate SplicedFor(i: Interface, source: nat, sni: Option<string>) {
    Contains(i.subnet, source) && sni.Some? && Admits(i.allowlist, sni.value)
  }

  lemma OwnSplice(s: Settings, interfaces: seq<Interface>, i: Interface, source: nat, sni: Option<string>)
    requires KeysDistinct(VlanKey, interfaces) && i in interfaces && ValidAllowlist(i.allowlist)
    ensures BumpAction(OwnSplices(i), File(s, interfaces), source, 2, sni) ==
      if SplicedFor(i, source, sni) then Some(Tunnel) else None
  {
    SourceName(s, interfaces, i, source);
    ServerNamed(s, interfaces, i, sni);
  }

  lemma {:induction false} SplicesBump(interfaces: seq<Interface>, file: seq<Line>, source: nat, sni: Option<string>)
    requires forall i :: i in interfaces ==>
      BumpAction(OwnSplices(i), file, source, 2, sni) == if SplicedFor(i, source, sni) then Some(Tunnel) else None
    ensures BumpAction(Splices(interfaces), file, source, 2, sni) ==
      if exists i :: i in interfaces && SplicedFor(i, source, sni) then Some(Tunnel) else None
  {
    if interfaces != [] {
      var n := |interfaces| - 1;
      SplicesBump(interfaces[..n], file, source, sni);
      assert interfaces == interfaces[..n] + [interfaces[n]];
      BumpConcat(Splices(interfaces[..n]), OwnSplices(interfaces[n]), file, source, 2, sni);
    }
  }

  lemma BlocksNoBump(s: Settings, interfaces: seq<Interface>, source: nat, step: nat, sni: Option<string>)
    ensures BumpAction(Header(s) + Blocks(interfaces) + [DenyAll, Blank], File(s, interfaces), source, step, sni).None?
  {
    var lines := Header(s) + Blocks(interfaces) + [DenyAll, Blank];
    forall l | l in lines ensures BumpRule(l, File(s, interfaces), source, step, sni).None? {
      BlocksMembers(interfaces, l);
    }
    NoBump(lines, File(s, interfaces), source, step, sni);
  }

  lemma FileBump(s: Settings, interfaces: seq<Interface>, source: nat, sni: Option<string>)
    ensures var file := File(s, interfaces);
      && BumpAction(file, file, source, 1, None) == Some(Peek)
      && (BumpAction(file, file, source, 2, sni) == Some(Tunnel) <==>
           BumpAction(Splices(interfaces), file, source, 2, sni) == Some(Tunnel))
  {
    var file := File(s, interfaces);
    var front := Header(s) + Blocks(interfaces) + [DenyAll, Blank];
    var end := [TerminateAll, Blank];
    var rules := [PeekStep1] + (Splices(interfaces) + end);
    assert file == front + rules;
    BlocksNoBump(s, interfaces, source, 1, None);
    BlocksNoBump(s, interfaces, source, 2, sni);
    BumpConcat(front, rules, file, source, 1, None);
    BumpConcat(front, rules, file, source, 2, sni);
    assert rules[1..] == Splices(interfaces) + end;
    BumpConcat(Splices(interfaces), end, file, source, 2, sni);
  }

  // ---- main results -----------------------------------------------------------------------------------------

  /** A plain request is served exactly on 80 and 443 and to the group's own domains. */
  lemma PlainRequests(s: Settings, interfaces: seq<Interface>, trunk: string, c: Config, i: Interface, r: Request)
    requires ValidInterfaces(interfaces, trunk, c) && i in interfaces
    requires Contains(i.subnet, r.source) && !r.connect
    ensures Served(File(s, interfaces), r) <==> (r.port == 80 || r.port == 443) && Admits(i.allowlist, r.host)
  {
    OwnRequests(s, interfaces, trunk, c, i, r);
  }

  lemma OwnName(s: Settings, interfaces: seq<Interface>, trunk: string, c: Config, i: Interface, source: nat,
                sni: Option<string>)
    requires ValidInterfaces(interfaces, trunk, c) && i in interfaces && Contains(i.subnet, source)
    ensures BumpAction(Splices(interfaces), File(s, interfaces), source, 2, sni) ==
      if sni.Some? && Admits(i.allowlist, sni.value) then Some(Tunnel) else None
  {
    forall j | j in interfaces
      ensures BumpAction(OwnSplices(j), File(s, interfaces), source, 2, sni) ==
        if SplicedFor(j, source, sni) then Some(Tunnel) else None
    {
      OwnSplice(s, interfaces, j, source, sni);
    }
    SplicesBump(interfaces, File(s, interfaces), source, sni);
    forall j | j in interfaces && SplicedFor(j, source, sni) ensures i == j {
      Apart(interfaces, trunk, c, i, j, source);
    }
  }

  /** A TLS connection is tunnelled exactly on 443 and when it names one of the group's own domains. */
  lemma TlsConnections(s: Settings, interfaces: seq<Interface>, trunk: string, c: Config, i: Interface,
                       source: nat, port: nat, address: string, sni: Option<string>)
    requires ValidInterfaces(interfaces, trunk, c) && i in interfaces && Contains(i.subnet, source)
    ensures Tunnelled(File(s, interfaces), source, port, address, sni) <==>
      port == 443 && sni.Some? && Admits(i.allowlist, sni.value)
  {
    OwnRequests(s, interfaces, trunk, c, i, Request(source, true, port, address));
    FileBump(s, interfaces, source, sni);
    OwnName(s, interfaces, trunk, c, i, source, sni);
  }

  /** A source in no group's subnet gets nothing. */
  lemma Strangers(s: Settings, interfaces: seq<Interface>, trunk: string, c: Config, r: Request, sni: Option<string>)
    requires ValidInterfaces(interfaces, trunk, c)
    requires forall i :: i in interfaces ==> !Contains(i.subnet, r.source)
    ensures !Served(File(s, interfaces), r)
    ensures !Tunnelled(File(s, interfaces), r.source, r.port, r.host, sni)
  {
    forall q: Request | q.source == r.source ensures !Served(File(s, interfaces), q) {
      FileAccess(s, interfaces, q);
      if PortsAllow(q) {
        BlocksSilent(s, interfaces, trunk, c, q);
      }
    }
  }

  /** Adding, changing or removing other groups never changes a group's verdicts. */
  lemma OtherGroupsIrrelevant(s: Settings, before: seq<Interface>, after: seq<Interface>, trunk: string, c: Config,
                              i: Interface, source: nat, port: nat, host: string, sni: Option<string>)
    requires ValidInterfaces(before, trunk, c) && ValidInterfaces(after, trunk, c)
    requires i in before && i in after && Contains(i.subnet, source)
    ensures Served(File(s, before), Request(source, false, port, host)) <==>
      Served(File(s, after), Request(source, false, port, host))
    ensures Tunnelled(File(s, before), source, port, host, sni) <==> Tunnelled(File(s, after), source, port, host, sni)
  {
    PlainRequests(s, before, trunk, c, i, Request(source, false, port, host));
    PlainRequests(s, after, trunk, c, i, Request(source, false, port, host));
    TlsConnections(s, before, trunk, c, i, source, port, host, sni);
    TlsConnections(s, after, trunk, c, i, source, port, host, sni);
  }
}
