/** Which VM reaches which: the sender's and the receiver's policies taken together, over canonical slots. */
module VmIsolation {
  import opened Base
  import opened Slots
  import opened VmFirewall

  /** The input provisioning and the drift reconciler both build from a group's slot. */
  function InputFor(vlan: int, c: Config, ports: seq<int>, peers: seq<Cidr>, allowSameGroup: bool): Input
    requires ValidConfig(c) && InPool(vlan, c)
  {
    var s := SlotOf(vlan, c);
    Input(s.subnet, s.gatewayIp, s.accessIp, ports, peers, allowSameGroup)
  }

  ghost predicate CanonicalPeers(peers: seq<Cidr>, c: Config)
    requires ValidConfig(c)
  {
    forall p :: p in peers ==> exists u :: InPool(u, c) && p == SlotOf(u, c).subnet
  }

  /** What a group with a slot is given: its own addresses, some session ports, and slots of other groups as peers. */
  ghost predicate OfGroup(input: Input, vlan: int, c: Config)
    requires ValidConfig(c) && InPool(vlan, c)
  {
    && input == InputFor(vlan, c, input.ports, input.peers, input.allowSameGroup)
    && |input.ports| > 0 && (forall p :: p in input.ports ==> 0 < p && p < 65536)
    && CanonicalPeers(input.peers, c) && SlotOf(vlan, c).subnet !in input.peers
  }

  /** Every group with a slot has a policy, whatever its flag. */
  lemma GroupHasPolicy(vlan: int, c: Config, input: Input)
    requires ValidConfig(c) && InPool(vlan, c) && OfGroup(input, vlan, c)
    ensures BuildVmFirewallPolicy(input).Some?
  {
    BuiltExactly(input);
    SlotAddresses(vlan, c);
  }

  ghost predicate VmAddress(vlan: int, c: Config, address: nat)
    requires ValidConfig(c) && InPool(vlan, c)
  {
    var s := SlotOf(vlan, c);
    Contains(s.subnet, address) && address != s.gatewayIp && address != s.accessIp
  }

  /** Ports of a DHCP server's traffic, section 4.1 of RFC 2131. */
  predicate ServesDhcp(k: Packet) {
    k.protocol == Udp && (k.sport == 67 || k.dport == 68)
  }

  lemma PeerMeansListed(input: Input, c: Config, vlan: int, k: Packet)
    requires ValidConfig(c) && InPool(vlan, c) && CanonicalPeers(input.peers, c)
    requires Contains(SlotOf(vlan, c).subnet, k.source)
    ensures FromPeer(input, k) <==> SlotOf(vlan, c).subnet in input.peers
  {
    if FromPeer(input, k) {
      var p :| p in input.peers && Contains(p, k.source);
      var u :| InPool(u, c) && p == SlotOf(u, c).subnet;
      SlotsDisjoint(u, vlan, c, k.source);
    }
  }

  /** A VM of VLAN `from` reaches a VM of VLAN `to` exactly when it does not pose as a DHCP server and either both are
      in one group that allows it or the receiver's group lists the sender's as a peer. */
  lemma VmToVm(from: int, to: int, c: Config, sender: Input, receiver: Input, k: Packet)
    requires ValidConfig(c) && InPool(from, c) && InPool(to, c)
    requires OfGroup(sender, from, c) && OfGroup(receiver, to, c) && VmAddress(to, c, k.dest)
    ensures BuildVmFirewallPolicy(sender).Some? && BuildVmFirewallPolicy(receiver).Some?
    ensures MaySource(BuildVmFirewallPolicy(sender).value, k.source) <==> VmAddress(from, c, k.source)
    ensures VmAddress(from, c, k.source) ==>
      (Passes(BuildVmFirewallPolicy(sender).value, false, k)
        && Passes(BuildVmFirewallPolicy(receiver).value, true, k) <==>
       !ServesDhcp(k) && ((from == to && receiver.allowSameGroup) || SlotOf(from, c).subnet in receiver.peers))
  {
    GroupHasPolicy(from, c, sender);
    GroupHasPolicy(to, c, receiver);
    SourceExactly(sender, k.source);
    EgressExactly(sender, k);
    IngressExactly(receiver, k);
    if Contains(SlotOf(from, c).subnet, k.source) { PeerMeansListed(receiver, c, from, k); }
    NotTrusted(to, from, c, k.dest);
    if VmAddress(from, c, k.source) { NotTrusted(from, to, c, k.source); }
    if Contains(SlotOf(to, c).subnet, k.source) && Contains(SlotOf(from, c).subnet, k.source) {
      SlotsDisjoint(from, to, c, k.source);
    }
  }

  lemma NotTrusted(vlan: int, other: int, c: Config, address: nat)
    requires ValidConfig(c) && InPool(vlan, c) && InPool(other, c) && VmAddress(vlan, c, address)
    ensures address != SlotOf(other, c).gatewayIp && address != SlotOf(other, c).accessIp
  {
    SlotAddresses(other, c);
    if address == SlotOf(other, c).gatewayIp || address == SlotOf(other, c).accessIp {
      SlotsDisjoint(vlan, other, c, address);
    }
  }

  /** Access opens its session ports and pings, whatever the flag and the peers; the Gateway only pings.
      Apart from that each may answer a DHCP client. */
  lemma InfrastructureExactly(vlan: int, c: Config, input: Input, k: Packet)
    requires ValidConfig(c) && InPool(vlan, c) && OfGroup(input, vlan, c)
    requires k.source == input.accessIp || k.source == input.gatewayIp
    ensures BuildVmFirewallPolicy(input).Some?
    ensures Passes(BuildVmFirewallPolicy(input).value, true, k) <==>
      || k.protocol == Icmp
      || (k.source == input.accessIp && k.protocol == Tcp && k.dport in input.ports)
      || (k.protocol == Udp && k.sport == 67 && k.dport == 68)
  {
    GroupHasPolicy(vlan, c, input);
    IngressExactly(input, k);
    SlotAddresses(vlan, c);
    PeerMeansListed(input, c, vlan, k);
  }

  /** With peers that are not slots the flag is what protects: without it, a peer range covering Access opens every
      port. */
  lemma AccessExactly(input: Input, k: Packet)
    requires BuildVmFirewallPolicy(input).Some? && k.source == input.accessIp
    ensures Passes(BuildVmFirewallPolicy(input).value, true, k) <==>
      || k.protocol == Icmp || (k.protocol == Tcp && k.dport in input.ports) || ClientDhcp(true, k)
      || (!input.allowSameGroup && FromPeer(input, k))
  {
    IngressExactly(input, k);
  }
}
