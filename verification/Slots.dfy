/** The VLAN pool and the address plan hanging off it. */
module Slots {
  import opened Base
  import opened Decimal

  /** An IPv4 address is a number below 2^32. */
  datatype Cidr = Cidr(network: nat, prefix: nat)

  function Pow2(n: nat): nat {
    if n == 0 then 1 else 2 * Pow2(n - 1)
  }

  lemma {:induction false} Pow2Positive(n: nat)
    ensures Pow2(n) > 0
  {
    if n > 0 { Pow2Positive(n - 1); }
  }

  function BlockSize(prefix: nat): (size: nat)
    ensures size > 0
  {
    var bits := if prefix <= 32 then 32 - prefix else 0;
    Pow2Positive(bits);
    Pow2(bits)
  }

  predicate Contains(c: Cidr, address: nat) {
    address / BlockSize(c.prefix) == c.network / BlockSize(c.prefix)
  }

  datatype Config = Config(
    first: int, last: int, supernet: string, groupPrefix: int,
    gatewayHost: int, accessHost: int, dhcpFirstHost: int, dhcpLastHost: int, ipv6: bool)

  const APPROVED: Config := Config(2000, 2255, "10.200.0.0/16", 24, 1, 2, 25, 254, false)

  predicate ValidConfig(c: Config) {
    && c.last - c.first + 1 == 256
    && c.supernet == "10.200.0.0/16" && c.groupPrefix == 24
    && 1 <= c.gatewayHost <= 254 && 1 <= c.accessHost <= 254
    && 1 <= c.dhcpFirstHost <= 254 && 1 <= c.dhcpLastHost <= 254
    && c.gatewayHost != c.accessHost
    && c.dhcpFirstHost > c.gatewayHost && c.dhcpFirstHost > c.accessHost
    && c.dhcpFirstHost <= c.dhcpLastHost
    && !c.ipv6
  }

  /** Carried by the Access trunk whatever is allocated. */
  const MIGRATION_VLAN := 2000

  predicate InPool(vlan: int, c: Config) { c.first <= vlan <= c.last }

  datatype Slot = Slot(
    vlan: int, vnet: string, subnet: Cidr, gatewayIp: nat, accessIp: nat, dhcpFirst: nat, dhcpLast: nat)

  /** 10.200.`index`.`host`. */
  function HostAddress(index: nat, host: nat): nat {
    180879360 + 256 * index + host
  }

  function VnetName(vlan: int): string {
    "lab" + if vlan < 0 then "-" + Text(-vlan) else Text(vlan)
  }

  function SlotOf(vlan: int, c: Config): Slot
    requires ValidConfig(c) && InPool(vlan, c)
  {
    var index := vlan - c.first;
    Slot(vlan, VnetName(vlan), Cidr(HostAddress(index, 0), 24),
         HostAddress(index, c.gatewayHost), HostAddress(index, c.accessHost),
         HostAddress(index, c.dhcpFirstHost), HostAddress(index, c.dhcpLastHost))
  }

  /** Refuses a tag outside the pool, and every tag under a configuration that does not validate. */
  function GetNetworkSlot(vlan: int, c: Config): Option<Slot> {
    if ValidConfig(c) && InPool(vlan, c) then Some(SlotOf(vlan, c)) else None
  }

  /** Membership of a slot's subnet: exactly the 256 addresses 10.200.`index`.0 to .255. */
  lemma SubnetMembers(vlan: int, c: Config, address: nat)
    requires ValidConfig(c) && InPool(vlan, c)
    ensures Contains(SlotOf(vlan, c).subnet, address) <==>
      HostAddress(vlan - c.first, 0) <= address < HostAddress(vlan - c.first, 0) + 256
  {
    var base := HostAddress(vlan - c.first, 0);
    assert Pow2(8) == 256;
    assert base / 256 == 706560 + (vlan - c.first) && base % 256 == 0;
  }

  /** The 256 slots split the supernet: no address belongs to two of them. */
  lemma SlotsDisjoint(v: int, w: int, c: Config, address: nat)
    requires ValidConfig(c) && InPool(v, c) && InPool(w, c)
    requires Contains(SlotOf(v, c).subnet, address) && Contains(SlotOf(w, c).subnet, address)
    ensures v == w
  {
    SubnetMembers(v, c, address);
    SubnetMembers(w, c, address);
  }

  /** The infrastructure addresses are distinct, inside the subnet, and never leased out. */
  lemma SlotAddresses(vlan: int, c: Config)
    requires ValidConfig(c) && InPool(vlan, c)
    ensures var s := SlotOf(vlan, c);
      && Contains(s.subnet, s.gatewayIp) && Contains(s.subnet, s.accessIp)
      && Contains(s.subnet, s.dhcpFirst) && Contains(s.subnet, s.dhcpLast)
      && s.gatewayIp != s.accessIp
      && s.subnet.network == 10 * 16777216 + 200 * 65536 + 256 * (vlan - c.first)
      && s.gatewayIp == s.subnet.network + c.gatewayHost && s.accessIp == s.subnet.network + c.accessHost
      && s.dhcpFirst == s.subnet.network + c.dhcpFirstHost && s.dhcpLast == s.subnet.network + c.dhcpLastHost
      && forall a: nat :: s.dhcpFirst <= a <= s.dhcpLast ==>
           Contains(s.subnet, a) && a != s.gatewayIp && a != s.accessIp
  {
    var s := SlotOf(vlan, c);
    SubnetMembers(vlan, c, s.gatewayIp);
    SubnetMembers(vlan, c, s.accessIp);
    SubnetMembers(vlan, c, s.dhcpFirst);
    SubnetMembers(vlan, c, s.dhcpLast);
    forall a: nat | s.dhcpFirst <= a <= s.dhcpLast
      ensures Contains(s.subnet, a) && a != s.gatewayIp && a != s.accessIp
    {
      SubnetMembers(vlan, c, a);
    }
  }

  /** The approved pool, number by number: VLAN 2000 + `i` is 10.200.`i`.0/24, with the Gateway on .1, Access on .2 and
      leases from .25 to .254. */
  lemma ApprovedSlots(vlan: int)
    ensures GetNetworkSlot(vlan, APPROVED).Some? <==> 2000 <= vlan <= 2255
    ensures 2000 <= vlan <= 2255 ==>
      var slot, base := GetNetworkSlot(vlan, APPROVED).value, 10 * 16777216 + 200 * 65536 + 256 * (vlan - 2000);
      && slot.vlan == vlan && slot.vnet == "lab" + Text(vlan) && slot.subnet == Cidr(base, 24)
      && slot.gatewayIp == base + 1 && slot.accessIp == base + 2
      && slot.dhcpFirst == base + 25 && slot.dhcpLast == base + 254
  { }

  /** Tag, VNet name and subnet determine one another. */
  lemma SlotNamesInjective(v: int, w: int, c: Config)
    requires ValidConfig(c) && InPool(v, c) && InPool(w, c)
    ensures SlotOf(v, c).subnet == SlotOf(w, c).subnet ==> v == w
    ensures VnetName(v) == VnetName(w) ==> v == w
  {
    if VnetName(v) == VnetName(w) {
      VnetInjective(v, w);
    }
  }

  lemma VnetInjective(v: int, w: int)
    requires VnetName(v) == VnetName(w)
    ensures v == w
  {
    var a, b := VnetName(v)[3..], VnetName(w)[3..];
    assert a == if v < 0 then "-" + Text(-v) else Text(v);
    assert b == if w < 0 then "-" + Text(-w) else Text(w);
    DecimalIsNumeral(if v < 0 then -v else v);
    DecimalIsNumeral(if w < 0 then -w else w);
    assert v < 0 <==> a[0] == '-';
    assert w < 0 <==> b[0] == '-';
    if v < 0 && w < 0 {
      assert a[1..] == Text(-v) && b[1..] == Text(-w);
      DecimalInjective(-v, -w);
    } else {
      DecimalInjective(v, w);
    }
  }
}
