/** Choosing the address a session targets, with the 32-bit arithmetic the source does. */
module AddressSelection {
  import opened Base
  import opened Slots
  import opened Decimal
  import opened Strings
  import opened Words

  type Octet = n: nat | n < 256

  /** What the guest agent reports: a dotted quad, or something that is not IPv4. */
  datatype Reported = Quad(a: Octet, b: Octet, c: Octet, d: Octet) | NotIpv4(text: string)

  function AsText(r: Reported): string {
    match r
    case Quad(a, b, c, d) => Join([Text(a), Text(b), Text(c), Text(d)], '.')
    case NotIpv4(text) => text
  }

  // ---- the arithmetic ---------------------------------------------------------------------------------

  function OctetWord(o: Octet): Word { Zeros(24) + Bits(o, 8) }

  function Push(w: Word, o: Octet): Word { Or(Shl(w, 8), OctetWord(o)) }

  function ToWord(q: Reported): Word
    requires q.Quad?
  {
    Push(Push(Push(Push(Zeros(32), q.a), q.b), q.c), q.d)
  }

  function ToIpv4Number(q: Reported): nat
    requires q.Quad?
  {
    Unsigned(ToWord(q))
  }

  function MaskFor(prefix: nat): Word
    requires prefix <= 32
  {
    if prefix == 0 then Zeros(32) else Shl(Ones(32), 32 - prefix)
  }

  /** `network` is the signed result of `&`, as the source stores it. */
  datatype Network = Network(network: int, prefix: nat)

  function ParseIpv4Cidr(address: Reported, prefix: nat): Option<Network> {
    if address.Quad? && 8 <= prefix <= 32 then Some(Network(Signed(And(ToWord(address), MaskFor(prefix))), prefix))
    else None
  }

  predicate Inside(n: Network, q: Reported)
    requires q.Quad? && n.prefix <= 32
  {
    Signed(And(ToWord(q), MaskFor(n.prefix))) == n.network
  }

  lemma PushedBits(w: Word, o: Octet)
    requires w[..8] == Zeros(8)
    ensures Push(w, o) == w[8..] + Bits(o, 8)
  {
    var shifted, low := Shl(w, 8), OctetWord(o);
    forall k | 0 <= k < 32 ensures Push(w, o)[k] == (w[8..] + Bits(o, 8))[k] {
      assert Push(w, o)[k] == (shifted[k] || low[k]);
    }
  }

  lemma PushNumber(w: Word, o: Octet)
    requires Number(w) < Pow2(24)
    ensures Number(Push(w, o)) == 256 * Number(w) + o
  {
    TopZero(w);
    PushedBits(w, o);
    ByteBehind(w[8..], o);
  }

  lemma ByteBehind(bits: seq<bool>, o: Octet)
    ensures Number(bits + Bits(o, 8)) == 256 * Number(bits) + o
  {
    assert Pow2(8) == 256 by { Pow32(); }
    NumberAppend(bits, Bits(o, 8));
    NumberOfBits(o, 8);
  }

  /** A word below 2^24 has no bit in its top octet. */
  lemma TopZero(w: Word)
    requires Number(w) < Pow2(24)
    ensures w[..8] == Zeros(8) && Number(w[8..]) == Number(w)
  {
    assert w == w[..8] + w[8..];
    NumberAppend(w[..8], w[8..]);
    NumberBound(w[8..]);
    if Number(w[..8]) > 0 {
      AtLeast(Number(w[..8]), Pow2(24));
      assert false;
    }
    NumberOfZeros(8);
    NumberInjective(w[..8], Zeros(8));
  }

  lemma Pow24()
    ensures Pow2(24) == 16777216
  {
    Pow32();
    PowAdd(16, 8);
  }

  function Base256(q: Reported): nat
    requires q.Quad?
  {
    16777216 * q.a + 65536 * q.b + 256 * q.c + q.d
  }

  /** The dotted quad read in base 256. */
  lemma QuadNumber(q: Reported)
    requires q.Quad?
    ensures ToIpv4Number(q) == Base256(q)
  {
    Pow24();
    NumberOfZeros(32);
    var one := Push(Zeros(32), q.a);
    PushNumber(Zeros(32), q.a);
    var two := Push(one, q.b);
    PushNumber(one, q.b);
    var three := Push(two, q.c);
    PushNumber(two, q.c);
    PushNumber(three, q.d);
    assert ToWord(q) == Push(three, q.d);
  }

  lemma DigitsUnique(q: Reported, r: Reported)
    requires q.Quad? && r.Quad? && Base256(q) == Base256(r)
    ensures q == r
  { }

  lemma MaskBits(prefix: nat)
    requires prefix <= 32
    ensures MaskFor(prefix) == Ones(prefix) + Zeros(32 - prefix)
  { }

  lemma MaskedWord(w: Word, prefix: nat)
    requires prefix <= 32
    ensures And(w, MaskFor(prefix)) == w[..prefix] + Zeros(32 - prefix)
  {
    MaskBits(prefix);
  }

  /** The signed mask comparison holds exactly when the addresses agree in their top `prefix` bits, section 3.1 of
      RFC 4632. */
  lemma InsideIsMembership(address: Reported, prefix: nat, q: Reported)
    requires address.Quad? && q.Quad? && ParseIpv4Cidr(address, prefix).Some?
    ensures Inside(ParseIpv4Cidr(address, prefix).value, q) <==>
      Contains(Cidr(ToIpv4Number(address), prefix), ToIpv4Number(q))
  {
    var a, b := ToWord(address), ToWord(q);
    MaskedWord(a, prefix);
    MaskedWord(b, prefix);
    TopBits(a, prefix);
    TopBits(b, prefix);
    if Number(a[..prefix]) == Number(b[..prefix]) {
      NumberInjective(a[..prefix], b[..prefix]);
    }
    if Inside(ParseIpv4Cidr(address, prefix).value, q) {
      SignedInjective(And(b, MaskFor(prefix)), And(a, MaskFor(prefix)));
      assert And(a, MaskFor(prefix))[..prefix] == a[..prefix];
      assert And(b, MaskFor(prefix))[..prefix] == b[..prefix];
    }
  }

  // ---- the selection ------------------------------------------------------------------------------------

  predicate Unroutable(q: Reported)
    requires q.Quad?
  {
    || Inside(ParseIpv4Cidr(Quad(0, 0, 0, 0), 8).value, q)
    || Inside(ParseIpv4Cidr(Quad(127, 0, 0, 0), 8).value, q)
    || Inside(ParseIpv4Cidr(Quad(169, 254, 0, 0), 16).value, q)
  }

  predicate Usable(r: Reported) { r.Quad? && !Unroutable(r) }

  /** Usable are all addresses but those of this network, loopback and link-local ones, section 2.1 of RFC 6890. */
  lemma UsableExactly(r: Reported)
    ensures Usable(r) <==> r.Quad? && r.a != 0 && r.a != 127 && !(r.a == 169 && r.b == 254)
  {
    if r.Quad? {
      InFirstOctet(0, r);
      InFirstOctet(127, r);
      InTwoOctets(169, 254, r);
    }
  }

  lemma InFirstOctet(a: Octet, q: Reported)
    requires q.Quad?
    ensures Inside(ParseIpv4Cidr(Quad(a, 0, 0, 0), 8).value, q) <==> q.a == a
  {
    var base := Quad(a, 0, 0, 0);
    InsideIsMembership(base, 8, q);
    QuadNumber(q);
    QuadNumber(base);
    Pow24();
    TopOctets(q);
    TopOctets(base);
  }

  lemma InTwoOctets(a: Octet, b: Octet, q: Reported)
    requires q.Quad?
    ensures Inside(ParseIpv4Cidr(Quad(a, b, 0, 0), 16).value, q) <==> q.a == a && q.b == b
  {
    var base := Quad(a, b, 0, 0);
    InsideIsMembership(base, 16, q);
    QuadNumber(q);
    QuadNumber(base);
    Pow32();
    TopOctets(q);
    TopOctets(base);
  }

  lemma TopOctets(q: Reported)
    requires q.Quad?
    ensures Base256(q) / 16777216 == q.a && Base256(q) / 65536 == 256 * q.a + q.b
  { }

  function Filter(s: seq<Reported>, keep: Reported -> bool): (r: seq<Reported>)
    ensures forall x :: x in r <==> x in s && keep(x)
  {
    if s == [] then []
    else
      assert s == [s[0]] + s[1..];
      (if keep(s[0]) then [s[0]] else []) + Filter(s[1..], keep)
  }

  function AddressKey(r: Reported): int {
    if r.Quad? then ToIpv4Number(r) else -1
  }

  predicate StartsWith(s: string, prefix: string) {
    |prefix| <= |s| && s[..|prefix|] == prefix
  }

  function FirstMatching(s: seq<Reported>, prefix: string): Option<Reported> {
    if s == [] then None
    else if StartsWith(AsText(s[0]), prefix) then Some(s[0])
    else FirstMatching(s[1..], prefix)
  }

  ghost predicate FirstAt(s: seq<Reported>, prefix: string, k: nat) {
    k < |s| && StartsWith(AsText(s[k]), prefix) && forall j :: 0 <= j < k ==> !StartsWith(AsText(s[j]), prefix)
  }

  /** The fallback keeps the reported order: the earliest candidate with the prefix, or none at all. */
  lemma {:induction false} FallbackIsEarliest(s: seq<Reported>, prefix: string)
    ensures match FirstMatching(s, prefix)
      case None => forall r :: r in s ==> !StartsWith(AsText(r), prefix)
      case Some(r) => exists k: nat :: FirstAt(s, prefix, k) && s[k] == r
  {
    if s != [] {
      if StartsWith(AsText(s[0]), prefix) {
        assert FirstAt(s, prefix, 0);
      } else {
        FallbackIsEarliest(s[1..], prefix);
        var rest := FirstMatching(s[1..], prefix);
        if rest.Some? {
          var k: nat :| FirstAt(s[1..], prefix, k) && s[1..][k] == rest.value;
          forall j | 0 <= j < k + 1 ensures !StartsWith(AsText(s[j]), prefix) {
            if j > 0 { assert s[1..][j - 1] == s[j]; }
          }
          assert FirstAt(s, prefix, k + 1);
        }
      }
    }
  }

  function InsideOf(n: Network): Reported -> bool {
    (x: Reported) => x.Quad? && n.prefix <= 32 && Inside(n, x)
  }

  datatype Subnet = Subnet(address: Reported, prefix: nat)

  /** The outer result is the error of a malformed subnet or an empty prefix; the inner one says whether any fits. */
  function SelectInstanceAddress(addresses: seq<Reported>, subnet: Option<Subnet>,
                                 legacyPrefix: string): Result<Option<Reported>, ()> {
    var candidates := Filter(addresses, Usable);
    if subnet.Some? then
      match ParseIpv4Cidr(subnet.value.address, subnet.value.prefix)
      case None => Err(())
      case Some(network) =>
        var members := SortBy(AddressKey, Filter(candidates, InsideOf(network)));
        if members != [] then Ok(Some(members[0])) else Fallback(candidates, legacyPrefix)
    else Fallback(candidates, legacyPrefix)
  }

  function Fallback(candidates: seq<Reported>, legacyPrefix: string): Result<Option<Reported>, ()> {
    if legacyPrefix == "" then Err(()) else Ok(FirstMatching(candidates, legacyPrefix))
  }

  ghost predicate IsMember(r: Reported, subnet: Subnet) {
    Usable(r) && subnet.address.Quad? && Contains(Cidr(ToIpv4Number(subnet.address), subnet.prefix), ToIpv4Number(r))
  }

  /** The numbers of two different quads differ, so a least member is unique. */
  lemma QuadInjective(q: Reported, r: Reported)
    requires q.Quad? && r.Quad? && ToIpv4Number(q) == ToIpv4Number(r)
    ensures q == r
  {
    QuadNumber(q);
    QuadNumber(r);
    DigitsUnique(q, r);
  }

  lemma InsideMembers(addresses: seq<Reported>, subnet: Subnet, network: Network)
    requires subnet.address.Quad? && ParseIpv4Cidr(subnet.address, subnet.prefix) == Some(network)
    ensures forall x :: x in Filter(Filter(addresses, Usable), InsideOf(network)) <==>
      x in addresses && IsMember(x, subnet)
  {
    forall x
      ensures x in Filter(Filter(addresses, Usable), InsideOf(network)) <==> x in addresses && IsMember(x, subnet)
    {
      if x.Quad? { InsideIsMembership(subnet.address, subnet.prefix, x); }
    }
  }

  lemma SortedLeast(s: seq<Reported>, y: Reported)
    requires y in s
    ensures SortBy(AddressKey, s) != [] && SortBy(AddressKey, s)[0] in s
    ensures AddressKey(SortBy(AddressKey, s)[0]) <= AddressKey(y)
  {
    var sorted := SortBy(AddressKey, s);
    SortByKeeps(AddressKey, s);
    assert y in sorted;
    var k :| 0 <= k < |sorted| && sorted[k] == y;
    assert sorted[0] in sorted;
  }

  /** With a well-formed subnet: the least usable member if there is one, and only otherwise the prefix fallback. */
  lemma LeastMember(addresses: seq<Reported>, subnet: Subnet, legacyPrefix: string)
    requires subnet.address.Quad? && 8 <= subnet.prefix <= 32
    ensures var r := SelectInstanceAddress(addresses, Some(subnet), legacyPrefix);
      if exists x :: x in addresses && IsMember(x, subnet) then
        && r.Ok? && r.value.Some? && r.value.value in addresses && IsMember(r.value.value, subnet)
        && forall y :: y in addresses && IsMember(y, subnet) ==> ToIpv4Number(r.value.value) <= ToIpv4Number(y)
      else r == Fallback(Filter(addresses, Usable), legacyPrefix)
  {
    var network := ParseIpv4Cidr(subnet.address, subnet.prefix).value;
    InsideMembers(addresses, subnet, network);
    SortedFirst(Filter(Filter(addresses, Usable), InsideOf(network)));
  }

  /** The first reported address that is usable and has the prefix. */
  ghost predicate FirstChoice(addresses: seq<Reported>, prefix: string, k: nat) {
    && k < |addresses| && Candidate(addresses[k], prefix)
    && forall j :: 0 <= j < k ==> !Candidate(addresses[j], prefix)
  }

  predicate Candidate(r: Reported, prefix: string) { Usable(r) && StartsWith(AsText(r), prefix) }

  lemma {:induction false} FilteredFirst(addresses: seq<Reported>, prefix: string)
    ensures match FirstMatching(Filter(addresses, Usable), prefix)
      case None => forall k :: 0 <= k < |addresses| ==> !Candidate(addresses[k], prefix)
      case Some(r) => exists k: nat :: FirstChoice(addresses, prefix, k) && addresses[k] == r
  {
    if addresses != [] {
      var rest := addresses[1..];
      if Candidate(addresses[0], prefix) {
        assert FirstChoice(addresses, prefix, 0);
      } else {
        FilteredFirst(rest, prefix);
        var kept := Filter(rest, Usable);
        assert Filter(addresses, Usable) == if Usable(addresses[0]) then [addresses[0]] + kept else kept;
        assert ([addresses[0]] + kept)[1..] == kept;
        var found := FirstMatching(kept, prefix);
        assert FirstMatching(Filter(addresses, Usable), prefix) == found;
        if found.Some? {
          var k: nat :| FirstChoice(rest, prefix, k) && rest[k] == found.value;
          FirstChoiceBehind(addresses, prefix, k);
        } else {
          forall k | 0 <= k < |addresses| ensures !Candidate(addresses[k], prefix) {
            if k > 0 { assert rest[k - 1] == addresses[k]; }
          }
        }
      }
    }
  }

  lemma FirstChoiceBehind(addresses: seq<Reported>, prefix: string, k: nat)
    requires addresses != [] && !Candidate(addresses[0], prefix) && FirstChoice(addresses[1..], prefix, k)
    ensures FirstChoice(addresses, prefix, k + 1)
  {
    forall j | 0 <= j < k + 1 ensures !Candidate(addresses[j], prefix) {
      if j > 0 { assert addresses[1..][j - 1] == addresses[j]; }
    }
  }

  predicate WellFormed(subnet: Subnet) { subnet.address.Quad? && 8 <= subnet.prefix <= 32 }

  /** Whether an allocated subnet settles the choice. */
  ghost predicate HasMember(addresses: seq<Reported>, subnet: Option<Subnet>) {
    subnet.Some? && exists x :: x in addresses && IsMember(x, subnet.value)
  }

  /** Refused are a malformed subnet and, when no address is in the subnet or none is allocated, an empty prefix; the
      prefix otherwise picks the first usable address that has it, or none if there is none. */
  lemma SelectionExactly(addresses: seq<Reported>, subnet: Option<Subnet>, legacyPrefix: string)
    ensures var r := SelectInstanceAddress(addresses, subnet, legacyPrefix);
      && (r.Err? <==>
           || (subnet.Some? && !WellFormed(subnet.value))
           || (legacyPrefix == "" && !HasMember(addresses, subnet)))
      && (r.Ok? && !HasMember(addresses, subnet) ==>
           match r.value
           case None => forall k :: 0 <= k < |addresses| ==> !Candidate(addresses[k], legacyPrefix)
           case Some(x) => exists k: nat :: FirstChoice(addresses, legacyPrefix, k) && addresses[k] == x)
  {
    FilteredFirst(addresses, legacyPrefix);
    if subnet.Some? && WellFormed(subnet.value) { LeastMember(addresses, subnet.value, legacyPrefix); }
  }

  lemma SortedFirst(s: seq<Reported>)
    ensures SortBy(AddressKey, s) != [] <==> s != []
    ensures s != [] ==> SortBy(AddressKey, s)[0] in s
    ensures forall y :: y in s ==> AddressKey(SortBy(AddressKey, s)[0]) <= AddressKey(y)
  {
    SortByKeeps(AddressKey, s);
    if s != [] { SortedLeast(s, s[0]); }
    forall y | y in s ensures AddressKey(SortBy(AddressKey, s)[0]) <= AddressKey(y) {
      SortedLeast(s, y);
    }
  }

  /** When some reported address is in the subnet, the order in which the agent listed its interfaces does not
      matter. */
  lemma OrderIrrelevant(a: seq<Reported>, b: seq<Reported>, subnet: Subnet, legacyPrefix: string)
    requires subnet.address.Quad? && 8 <= subnet.prefix <= 32
    requires forall x :: x in a <==> x in b
    requires exists x :: x in a && IsMember(x, subnet)
    ensures SelectInstanceAddress(a, Some(subnet), legacyPrefix) == SelectInstanceAddress(b, Some(subnet), legacyPrefix)
  {
    LeastMember(a, subnet, legacyPrefix);
    LeastMember(b, subnet, legacyPrefix);
    var x, y :=
      SelectInstanceAddress(a, Some(subnet), legacyPrefix), SelectInstanceAddress(b, Some(subnet), legacyPrefix);
    QuadInjective(x.value.value, y.value.value);
  }
}
