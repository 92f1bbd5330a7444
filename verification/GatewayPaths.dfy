/** The paths the Gateway applier may touch, and the flat names it backs them up under. */
module GatewayPaths {
  import opened Base
  import opened Decimal

  type Path = string

  const NFTABLES_PATH: Path := "/etc/nftables.d/virtual-lab-gateway.nft"
  const DNSMASQ_PATH: Path := "/etc/dnsmasq.d/virtual-lab-gateway.conf"
  const SQUID_PATH: Path := "/etc/squid/squid.conf"
  const SYSCTL_PATH: Path := "/etc/sysctl.d/99-virtual-lab-gateway.conf"
  const NETWORK_DIR: string := "/etc/systemd/network/"
  const UNIT_PREFIX: string := "/etc/systemd/network/50-"
  const PARENT_PREFIX: string := "/etc/systemd/network/50-virtual-lab-"

  predicate IsLetter(c: char) { 'a' <= c <= 'z' || 'A' <= c <= 'Z' }
  predicate IsNameChar(c: char) { IsLetter(c) || IsDecimalDigit(c) || c == '_' || c == '-' }

  predicate IsInterface(s: string) {
    1 <= |s| <= 15 && IsLetter(s[0]) && forall i :: 0 <= i < |s| ==> IsNameChar(s[i])
  }

  /** `<interface>.<four digits>`, the name of a VLAN subinterface. */
  predicate IsVlanName(s: string) {
    && |s| >= 6
    && s[|s| - 5] == '.'
    && IsInterface(s[..|s| - 5])
    && forall i :: |s| - 4 <= i < |s| ==> IsDecimalDigit(s[i])
  }

  predicate Wrapped(s: string, before: string, after: string) {
    |before| + |after| <= |s| && s[..|before|] == before && s[|s| - |after|..] == after
  }

  function Inner(s: string, before: string, after: string): string
    requires Wrapped(s, before, after)
  {
    s[|before|..|s| - |after|]
  }

  predicate UnitOf(p: Path, suffix: string) {
    Wrapped(p, UNIT_PREFIX, suffix) && IsVlanName(Inner(p, UNIT_PREFIX, suffix))
  }

  predicate ParentUnit(p: Path) {
    && Wrapped(p, PARENT_PREFIX, ".network")
    && IsInterface(Inner(p, PARENT_PREFIX, ".network"))
  }

  /** Paths that come and go with desired state; only these are ever pruned. */
  predicate Variable(p: Path) {
    UnitOf(p, ".netdev") || UnitOf(p, ".network") || ParentUnit(p)
  }

  predicate Exact(p: Path) {
    p == NFTABLES_PATH || p == DNSMASQ_PATH || p == SQUID_PATH || p == SYSCTL_PATH
  }

  predicate Allowed(p: Path) {
    Exact(p) || Variable(p)
  }

  // ---- the allowlist, path by path ------------------------------------------------------------------

  ghost predicate NameForm(name: string) {
    && 0 < |name| && |name| < 16
    && ('a' <= name[0] <= 'z' || 'A' <= name[0] <= 'Z')
    && forall c :: c in name ==> 'a' <= c <= 'z' || 'A' <= c <= 'Z' || '0' <= c <= '9' || c == '_' || c == '-'
  }

  ghost predicate UnitPath(p: Path, name: string, tag: string, kind: string) {
    && p == "/etc/systemd/network/50-" + name + "." + tag + kind && NameForm(name)
    && |tag| == 4 && (forall c :: c in tag ==> '0' <= c <= '9') && (kind == ".netdev" || kind == ".network")
  }

  ghost predicate ParentPath(p: Path, name: string) {
    p == "/etc/systemd/network/50-virtual-lab-" + name + ".network" && NameForm(name)
  }

  lemma NameFormExactly(s: string)
    ensures IsInterface(s) <==> NameForm(s)
  {
    if IsInterface(s) {
      forall c | c in s ensures IsNameChar(c) {
        var i :| 0 <= i < |s| && s[i] == c;
      }
    }
    if NameForm(s) {
      forall i | 0 <= i < |s| ensures IsNameChar(s[i]) { assert s[i] in s; }
    }
  }

  lemma UnitExactly(p: Path, kind: string)
    requires kind == ".netdev" || kind == ".network"
    ensures UnitOf(p, kind) <==> exists name, tag :: UnitPath(p, name, tag, kind)
  {
    if UnitOf(p, kind) {
      var inner := Inner(p, UNIT_PREFIX, kind);
      var name, tag := inner[..|inner| - 5], inner[|inner| - 4..];
      assert inner == name + "." + tag;
      assert p == UNIT_PREFIX + inner + kind;
      NameFormExactly(name);
      forall c | c in tag ensures '0' <= c <= '9' {
        var i :| 0 <= i < 4 && tag[i] == c;
        assert inner[|inner| - 4 + i] == c;
      }
      assert UnitPath(p, name, tag, kind);
    }
    if exists name, tag :: UnitPath(p, name, tag, kind) {
      var name, tag :| UnitPath(p, name, tag, kind);
      UnitFits(p, name, tag, kind);
    }
  }

  lemma UnitFits(p: Path, name: string, tag: string, kind: string)
    requires UnitPath(p, name, tag, kind)
    ensures UnitOf(p, kind) && Inner(p, UNIT_PREFIX, kind) == name + "." + tag
  {
    var inner := name + "." + tag;
    assert p == UNIT_PREFIX + inner + kind;
    assert Wrapped(p, UNIT_PREFIX, kind) && Inner(p, UNIT_PREFIX, kind) == inner;
    assert inner[..|inner| - 5] == name && inner[|inner| - 4..] == tag;
    NameFormExactly(name);
    forall i | |inner| - 4 <= i < |inner| ensures IsDecimalDigit(inner[i]) {
      assert inner[i] == tag[i - (|inner| - 4)];
      assert tag[i - (|inner| - 4)] in tag;
    }
  }

  lemma ParentExactly(p: Path)
    ensures ParentUnit(p) <==> exists name :: ParentPath(p, name)
  {
    if ParentUnit(p) {
      var name := Inner(p, PARENT_PREFIX, ".network");
      NameFormExactly(name);
      assert p == PARENT_PREFIX + name + ".network";
      assert ParentPath(p, name);
    }
    if exists name :: ParentPath(p, name) {
      var name :| ParentPath(p, name);
      NameFormExactly(name);
      assert Inner(p, PARENT_PREFIX, ".network") == name;
    }
  }

  /** The applier accepts four fixed files, the two units of a VLAN interface, and the unit of its parent. */
  lemma AllowedExactly(p: Path)
    ensures Allowed(p) <==>
      || p == "/etc/nftables.d/virtual-lab-gateway.nft" || p == "/etc/dnsmasq.d/virtual-lab-gateway.conf"
      || p == "/etc/squid/squid.conf" || p == "/etc/sysctl.d/99-virtual-lab-gateway.conf"
      || (exists name, tag :: UnitPath(p, name, tag, ".netdev"))
      || (exists name, tag :: UnitPath(p, name, tag, ".network"))
      || (exists name :: ParentPath(p, name))
  {
    UnitExactly(p, ".netdev");
    UnitExactly(p, ".network");
    ParentExactly(p);
  }

  // ---- links and backup names ---------------------------------------------------------------------------

  /** The VLAN link a `.netdev` file makes networkd create. */
  function LinkOf(p: Path): Option<string> {
    if UnitOf(p, ".netdev") then Some(Inner(p, UNIT_PREFIX, ".netdev")) else None
  }

  lemma LinkOfInjective(p: Path, q: Path)
    requires LinkOf(p).Some? && LinkOf(p) == LinkOf(q)
    ensures p == q
  {
    var before := UNIT_PREFIX;
    assert p == before + Inner(p, before, ".netdev") + ".netdev";
    assert q == before + Inner(q, before, ".netdev") + ".netdev";
  }

  function StripSlashes(p: string): string {
    if p != "" && p[0] == '/' then StripSlashes(p[1..]) else p
  }

  function Underscored(s: string): (r: string)
    ensures |r| == |s|
    ensures forall i :: 0 <= i < |s| ==> r[i] == if s[i] == '/' then '_' else s[i]
  {
    seq(|s|, i requires 0 <= i < |s| => if s[i] == '/' then '_' else s[i])
  }

  /** `path.lstrip("/").replace("/", "_")`. */
  function BackupName(p: Path): string {
    Underscored(StripSlashes(p))
  }

  /** Below the network directory a managed path has no further slash. */
  lemma VariableShape(p: Path)
    requires Variable(p)
    ensures |p| > 21 && p[..21] == NETWORK_DIR
    ensures p[0] == '/' && p[1] == 'e' && p[5] == 's' && p[6] == 'y' && p[8] == 't'
    ensures forall i :: 21 <= i < |p| ==> p[i] != '/'
  {
    PrefixShape();
    if UnitOf(p, ".netdev") {
      WrappedTail(p, UNIT_PREFIX, ".netdev");
    } else if UnitOf(p, ".network") {
      WrappedTail(p, UNIT_PREFIX, ".network");
    } else {
      WrappedTail(p, PARENT_PREFIX, ".network");
    }
    DirectoryStart(p);
  }

  lemma DirectoryStart(p: string)
    requires |p| > 21 && p[..21] == NETWORK_DIR
    ensures p[0] == '/' && p[1] == 'e' && p[5] == 's' && p[6] == 'y' && p[8] == 't'
  {
    var head := p[..21];
    assert p[0] == head[0] && p[1] == head[1] && p[5] == head[5] && p[6] == head[6] && p[8] == head[8];
    assert head[0] == NETWORK_DIR[0] && head[1] == NETWORK_DIR[1] && head[5] == NETWORK_DIR[5];
    assert head[6] == NETWORK_DIR[6] && head[8] == NETWORK_DIR[8];
  }

  predicate UnderNetworkDir(s: string) {
    |s| > 21 && s[..21] == NETWORK_DIR && forall i :: 21 <= i < |s| ==> s[i] != '/'
  }

  lemma PrefixShape()
    ensures UnderNetworkDir(UNIT_PREFIX) && UnderNetworkDir(PARENT_PREFIX)
  {
    assert |UNIT_PREFIX| == 24 && |PARENT_PREFIX| == 36;
    assert UNIT_PREFIX == NETWORK_DIR + "50-";
    assert PARENT_PREFIX == NETWORK_DIR + "50-virtual-lab-";
  }

  lemma WrappedTail(p: Path, before: string, after: string)
    requires Wrapped(p, before, after)
    requires UnderNetworkDir(before)
    requires forall i :: 0 <= i < |after| ==> after[i] != '/'
    requires forall i :: 0 <= i < |Inner(p, before, after)| ==> Inner(p, before, after)[i] != '/'
    ensures UnderNetworkDir(p)
  {
    assert p == before + Inner(p, before, after) + after;
    assert p[..21] == before[..21];
  }

  lemma StripOne(p: Path)
    requires |p| >= 2 && p[0] == '/' && p[1] != '/'
    ensures StripSlashes(p) == p[1..]
  {
    assert StripSlashes(p) == StripSlashes(p[1..]);
  }

  lemma ExactHead(p: Path)
    requires Exact(p)
    ensures |p| > 8 && p[0] == '/' && p[1] == 'e'
  {
    assert NFTABLES_PATH == "/e" + NFTABLES_PATH[2..];
    assert DNSMASQ_PATH == "/e" + DNSMASQ_PATH[2..];
    assert SQUID_PATH == "/e" + SQUID_PATH[2..];
    assert SYSCTL_PATH == "/e" + SYSCTL_PATH[2..];
  }

  lemma AllowedStrip(p: Path)
    requires Allowed(p)
    ensures |p| > 8 && p[0] == '/' && p[1] == 'e' && BackupName(p) == Underscored(p[1..])
  {
    if Variable(p) {
      VariableShape(p);
    } else {
      ExactHead(p);
    }
    StripOne(p);
  }

  predicate SameButSlashes(p: Path, q: Path) {
    |p| == |q| && forall i :: 0 <= i < |p| ==>
      (if p[i] == '/' then '_' else p[i]) == (if q[i] == '/' then '_' else q[i])
  }

  lemma SameNames(p: Path, q: Path)
    requires Allowed(p) && Allowed(q) && BackupName(p) == BackupName(q)
    ensures |p| > 8 && p[0] == '/' && q[0] == '/' && SameButSlashes(p, q)
  {
    AllowedStrip(p);
    AllowedStrip(q);
    var a, b := p[1..], q[1..];
    assert |a| == |Underscored(a)| == |Underscored(b)| == |b|;
    forall i | 0 <= i < |p|
      ensures (if p[i] == '/' then '_' else p[i]) == (if q[i] == '/' then '_' else q[i])
    {
      if i > 0 {
        assert Underscored(a)[i - 1] == Underscored(b)[i - 1];
        assert a[i - 1] == p[i] && b[i - 1] == q[i];
      }
    }
  }

  /** No two managed paths share a backup file, although `_` is legal inside an interface name. */
  lemma BackupNameInjective(p: Path, q: Path)
    requires Allowed(p) && Allowed(q) && BackupName(p) == BackupName(q)
    ensures p == q
  {
    SameNames(p, q);
    if Variable(p) && Variable(q) {
      BothVariable(p, q);
    } else if Variable(p) {
      ExactApart(q, p);
    } else if Variable(q) {
      ExactApart(p, q);
    } else {
      BothExact(p, q);
    }
  }

  lemma BothVariable(p: Path, q: Path)
    requires Variable(p) && Variable(q) && SameButSlashes(p, q)
    ensures p == q
  {
    VariableShape(p);
    VariableShape(q);
    assert p == p[..21] + p[21..] && q == q[..21] + q[21..];
    assert p[21..] == q[21..];
  }

  lemma BothExact(p: Path, q: Path)
    requires Exact(p) && Exact(q) && SameButSlashes(p, q)
    ensures p == q
  {
    assert |NFTABLES_PATH| == 39 && |DNSMASQ_PATH| == 39 && |SQUID_PATH| == 21 && |SYSCTL_PATH| == 41;
    assert NFTABLES_PATH[5] == 'n' && DNSMASQ_PATH[5] == 'd';
  }

  /** An exact managed file and a network unit already differ right after `/etc/`. */
  lemma ExactApart(e: Path, v: Path)
    requires Exact(e) && Variable(v)
    ensures !SameButSlashes(e, v)
  {
    VariableShape(v);
    assert NFTABLES_PATH[5] == 'n' && DNSMASQ_PATH[5] == 'd' && SQUID_PATH[6] == 'q' && SYSCTL_PATH[8] == 'c';
    assert |e| > 8;
  }
}
