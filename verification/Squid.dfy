/** The Squid configuration as an ordered list of lines, and what its two rule lists mean. */
module Squid {
  import opened Base
  import opened Slots
  import opened Strings
  import opened DomainNames
  import opened Allowlists
  import opened GatewayPlan

  datatype Settings = Settings(internalPort: nat, httpPort: nat, httpsPort: nat, resolvers: seq<string>)

  /** A line that mentions a group carries its VLAN, as the `lab<VLAN>_` names in the text do. */
  datatype Line =
    | Blank
    | InternalPort(port: nat) | HttpPort(port: nat) | HttpsPort(port: nat)
    | Resolvers(addresses: seq<string>)
    | DenyUnsafePorts | DenyConnectElsewhere | DenyAll
    | AclSource(vlan: int, subnet: Cidr)
    | AclDomain(vlan: int, patterns: seq<string>)
    | AclSni(vlan: int, patterns: seq<string>)
    | AllowConnect(vlan: int) | AllowDomain(vlan: int) | DenySource(vlan: int)
    | PeekStep1 | Splice(vlan: int) | TerminateAll

  // ---- rendering ----------------------------------------------------------------------------------

  /** A leading dot means the domain and everything below it. */
  function Pattern(d: Domain): string {
    if d.subdomains then "." + d.name else d.name
  }

  function Patterns(allowlist: seq<Domain>): seq<string> {
    seq(|allowlist|, i requires 0 <= i < |allowlist| => Pattern(allowlist[i]))
  }

  function Header(s: Settings): seq<Line> {
    [InternalPort(s.internalPort), Blank, HttpPort(s.httpPort), HttpsPort(s.httpsPort), Blank,
     DenyUnsafePorts, DenyConnectElsewhere, Blank, Resolvers(s.resolvers), Blank]
  }

  function Block(i: Interface): seq<Line> {
    if i.allowlist == [] then
      [AclSource(i.vlan, i.subnet), AllowConnect(i.vlan), DenySource(i.vlan), Blank]
    else
      [AclSource(i.vlan, i.subnet), AllowConnect(i.vlan),
       AclDomain(i.vlan, Patterns(i.allowlist)), AclSni(i.vlan, Patterns(i.allowlist)),
       AllowDomain(i.vlan), DenySource(i.vlan), Blank]
  }

  function Blocks(interfaces: seq<Interface>): seq<Line> {
    if interfaces == [] then [] else Blocks(interfaces[..|interfaces| - 1]) + Block(interfaces[|interfaces| - 1])
  }

  function OwnSplices(i: Interface): seq<Line> {
    if i.allowlist == [] then [] else [Splice(i.vlan)]
  }

  function Splices(interfaces: seq<Interface>): seq<Line> {
    if interfaces == [] then [] else Splices(interfaces[..|interfaces| - 1]) + OwnSplices(interfaces[|interfaces| - 1])
  }

  function File(s: Settings, interfaces: seq<Interface>): seq<Line> {
    Header(s) + Blocks(interfaces) + [DenyAll, Blank, PeekStep1] + Splices(interfaces) + [TerminateAll, Blank]
  }

  ghost function Front(s: Settings, interfaces: seq<Interface>): seq<Line> {
    Header(s) + Blocks(interfaces)
  }

  lemma OneMore(s: Settings, interfaces: seq<Interface>, k: nat)
    requires k < |interfaces|
    ensures Front(s, interfaces[..k + 1]) == Front(s, interfaces[..k]) + Block(interfaces[k])
    ensures Splices(interfaces[..k + 1]) == Splices(interfaces[..k]) + OwnSplices(interfaces[k])
  {
    assert interfaces[..k + 1][..k] == interfaces[..k];
  }

  lemma OpenBlock(front: seq<Line>, i: Interface, rest: seq<Line>)
    requires Block(i) == [AclSource(i.vlan, i.subnet), AllowConnect(i.vlan)] + rest
    ensures front + [AclSource(i.vlan, i.subnet), AllowConnect(i.vlan)] + rest == front + Block(i)
  { }

  method RenderSquid(s: Settings, interfaces: seq<Interface>) returns (lines: seq<Line>)
    ensures lines == File(s, interfaces)
  {
    lines := Header(s);
    var spliceRules: seq<Line> := [];
    for k := 0 to |interfaces|
      invariant lines == Front(s, interfaces[..k])
      invariant spliceRules == Splices(interfaces[..k])
    {
      var entry := interfaces[k];
      OneMore(s, interfaces, k);
      ghost var front := lines;
      lines := lines + [AclSource(entry.vlan, entry.subnet), AllowConnect(entry.vlan)];
      if entry.allowlist == [] {
        lines := lines + [DenySource(entry.vlan), Blank];
        OpenBlock(front, entry, [DenySource(entry.vlan), Blank]);
        continue;
      }
      var patterns := Patterns(entry.allowlist);
      var rest := [AclDomain(entry.vlan, patterns), AclSni(entry.vlan, patterns),
                   AllowDomain(entry.vlan), DenySource(entry.vlan), Blank];
      lines := lines + rest;
      OpenBlock(front, entry, rest);
      spliceRules := spliceRules + [Splice(entry.vlan)];
    }
    assert interfaces[..|interfaces|] == interfaces;
    lines := lines + [DenyAll, Blank, PeekStep1] + spliceRules + [TerminateAll, Blank];
  }

  lemma {:induction false} BlocksMembers(interfaces: seq<Interface>, l: Line)
    ensures l in Blocks(interfaces) <==> exists i :: i in interfaces && l in Block(i)
  {
    if interfaces != [] {
      var n := |interfaces| - 1;
      BlocksMembers(interfaces[..n], l);
      assert interfaces == interfaces[..n] + [interfaces[n]];
    }
  }

  lemma {:induction false} SplicesMembers(interfaces: seq<Interface>, l: Line)
    ensures l in Splices(interfaces) <==> exists i :: i in interfaces && l in OwnSplices(i)
  {
    if interfaces != [] {
      var n := |interfaces| - 1;
      SplicesMembers(interfaces[..n], l);
      assert interfaces == interfaces[..n] + [interfaces[n]];
    }
  }

  /** Every line of a group's own: its block and, when it has an allowlist, its splice rule. */
  ghost predicate OwnLine(i: Interface, l: Line) {
    l in Block(i) || l in OwnSplices(i)
  }

  predicate SharedLine(s: Settings, l: Line) {
    l in Header(s) || l in [DenyAll, Blank, PeekStep1, TerminateAll]
  }

  lemma FileMembers(s: Settings, interfaces: seq<Interface>, l: Line)
    ensures l in File(s, interfaces) <==> SharedLine(s, l) || exists i :: i in interfaces && OwnLine(i, l)
  {
    BlocksMembers(interfaces, l);
    SplicesMembers(interfaces, l);
  }

  // ---- what the lists mean ----------------------------------------------------------------------------

  predicate EndsWith(s: string, tail: string) {
    |tail| <= |s| && s[|s| - |tail|..] == tail
  }

  predicate PatternMatches(p: string, host: string) {
    if p != "" && p[0] == '.' then host == p[1..] || EndsWith(host, p) else host == p
  }

  predicate AnyMatches(patterns: seq<string>, host: string) {
    exists k :: 0 <= k < |patterns| && PatternMatches(patterns[k], host)
  }

  /** Lines that define the same name add up. */
  ghost predicate FromSource(file: seq<Line>, vlan: int, source: nat) {
    exists l :: l in file && l.AclSource? && l.vlan == vlan && Contains(l.subnet, source)
  }

  ghost predicate ToDomain(file: seq<Line>, vlan: int, host: string) {
    exists l :: l in file && l.AclDomain? && l.vlan == vlan && AnyMatches(l.patterns, host)
  }

  ghost predicate ToName(file: seq<Line>, vlan: int, sni: Option<string>) {
    sni.Some? && exists l :: l in file && l.AclSni? && l.vlan == vlan && AnyMatches(l.patterns, sni.value)
  }

  /** A plain request, or the `CONNECT` that stands for an intercepted TLS connection. */
  datatype Request = Request(source: nat, connect: bool, port: nat, host: string)

  ghost function AccessRule(l: Line, file: seq<Line>, r: Request): Option<bool> {
    match l
    case DenyUnsafePorts => if r.port != 80 && r.port != 443 then Some(false) else None
    case DenyConnectElsewhere => if r.connect && r.port != 443 then Some(false) else None
    case AllowConnect(v) => if r.connect && r.port == 443 && FromSource(file, v, r.source) then Some(true) else None
    case AllowDomain(v) => if FromSource(file, v, r.source) && ToDomain(file, v, r.host) then Some(true) else None
    case DenySource(v) => if FromSource(file, v, r.source) then Some(false) else None
    case DenyAll => Some(false)
    case _ => None
  }

  /** The first `http_access` line that matches decides. */
  ghost function Access(lines: seq<Line>, file: seq<Line>, r: Request): Option<bool> {
    if lines == [] then None
    else
      var first := AccessRule(lines[0], file, r);
      if first.Some? then first else Access(lines[1..], file, r)
  }

  datatype Bump = Peek | Tunnel | Cut

  /** `step` 1 is before the ClientHello has been read; the server name is known only from step 2 on. */
  ghost function BumpRule(l: Line, file: seq<Line>, source: nat, step: nat, sni: Option<string>): Option<Bump> {
    match l
    case PeekStep1 => if step == 1 then Some(Peek) else None
    case Splice(v) => if FromSource(file, v, source) && step > 1 && ToName(file, v, sni) then Some(Tunnel) else None
    case TerminateAll => Some(Cut)
    case _ => None
  }

  ghost function BumpAction(lines: seq<Line>, file: seq<Line>, source: nat, step: nat,
                            sni: Option<string>): Option<Bump> {
    if lines == [] then None
    else
      var first := BumpRule(lines[0], file, source, step, sni);
      if first.Some? then first else BumpAction(lines[1..], file, source, step, sni)
  }

  ghost predicate Served(file: seq<Line>, r: Request) {
    Access(file, file, r) == Some(true)
  }

  /** A TLS connection to `port` reaches its origin: admitted, peeked at, and then spliced. */
  ghost predicate Tunnelled(file: seq<Line>, source: nat, port: nat, address: string, sni: Option<string>) {
    && Served(file, Request(source, true, port, address))
    && BumpAction(file, file, source, 1, None) == Some(Peek)
    && BumpAction(file, file, source, 2, sni) == Some(Tunnel)
  }

  lemma {:induction false} AccessConcat(a: seq<Line>, b: seq<Line>, file: seq<Line>, r: Request)
    ensures Access(a + b, file, r) == if Access(a, file, r).Some? then Access(a, file, r) else Access(b, file, r)
  {
    if a == [] {
      assert a + b == b;
    } else {
      assert (a + b)[1..] == a[1..] + b;
      AccessConcat(a[1..], b, file, r);
    }
  }

  lemma {:induction false} BumpConcat(a: seq<Line>, b: seq<Line>, file: seq<Line>, source: nat, step: nat,
                                      sni: Option<string>)
    ensures BumpAction(a + b, file, source, step, sni) ==
      var first := BumpAction(a, file, source, step, sni);
      if first.Some? then first else BumpAction(b, file, source, step, sni)
  {
    if a == [] {
      assert a + b == b;
    } else {
      assert (a + b)[1..] == a[1..] + b;
      BumpConcat(a[1..], b, file, source, step, sni);
    }
  }
}
