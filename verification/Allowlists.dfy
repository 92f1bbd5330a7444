/** Collecting allowlist entries whose names are already normalised. */
module Allowlists {
  import opened Base

  /** An allowlist entry; `subdomains` admits everything below the name as well. */
  datatype Domain = Domain(name: string, subdomains: bool)

  ghost predicate SomeClash(entries: seq<Domain>) {
    exists i, j :: 0 <= i < j < |entries| && Clash(entries[i], entries[j])
  }

  predicate Clash(d: Domain, e: Domain) {
    d.name == e.name && d.subdomains != e.subdomains
  }

  ghost predicate DistinctNames(allowlist: seq<Domain>) {
    forall i, j :: 0 <= i < j < |allowlist| ==> allowlist[i].name != allowlist[j].name
  }

  ghost predicate SameEntries(a: seq<Domain>, b: seq<Domain>) {
    forall d :: d in a <==> d in b
  }

  ghost predicate Collected(byDomain: map<string, bool>, keys: seq<string>, entries: seq<Domain>) {
    && Lists(keys, byDomain.Keys)
    && !SomeClash(entries)
    && (forall d :: d in entries <==> d.name in byDomain && byDomain[d.name] == d.subdomains)
  }

  lemma CollectOne(byDomain: map<string, bool>, keys: seq<string>, entries: seq<Domain>, d: Domain)
    requires Collected(byDomain, keys, entries)
    requires d.name in byDomain ==> byDomain[d.name] == d.subdomains
    ensures Collected(byDomain[d.name := d.subdomains],
                      if d.name in byDomain then keys else keys + [d.name], entries + [d])
  {
    var all := entries + [d];
    forall i, j | 0 <= i < j < |all| ensures !Clash(all[i], all[j]) {
      if j < |entries| {
        assert !Clash(entries[i], entries[j]);
      } else {
        assert all[i] in entries;
      }
    }
    forall e
      ensures e in all <==>
        e.name in byDomain[d.name := d.subdomains] && byDomain[d.name := d.subdomains][e.name] == e.subdomains
    {
      assert e in all <==> e in entries || e == d;
    }
  }

  lemma CollectClash(byDomain: map<string, bool>, keys: seq<string>, entries: seq<Domain>, d: Domain,
                     later: seq<Domain>)
    requires Collected(byDomain, keys, entries)
    requires d.name in byDomain && byDomain[d.name] != d.subdomains
    ensures SomeClash(entries + [d] + later)
  {
    var all := entries + [d] + later;
    var e := Domain(d.name, byDomain[d.name]);
    var i :| 0 <= i < |entries| && entries[i] == e;
    assert all[i] == e && all[|entries|] == d;
    assert Clash(all[i], all[|entries|]);
  }

  /** The entries in the order of their names. */
  function InNameOrder(byDomain: map<string, bool>, keys: seq<string>): (r: seq<Domain>)
    requires Lists(keys, byDomain.Keys)
    ensures |r| == |SortStrings(keys)|
    ensures forall i :: 0 <= i < |r| ==>
      r[i].name == SortStrings(keys)[i] && r[i].name in byDomain && r[i].subdomains == byDomain[r[i].name]
  {
    var sorted := SortStrings(keys);
    SortStringsLists(keys, byDomain.Keys);
    assert forall i :: 0 <= i < |sorted| ==> sorted[i] in sorted;
    seq(|sorted|, i requires 0 <= i < |sorted| => Domain(sorted[i], byDomain[sorted[i]]))
  }

  lemma OrderedResult(byDomain: map<string, bool>, keys: seq<string>, entries: seq<Domain>)
    requires Collected(byDomain, keys, entries)
    ensures var r := InNameOrder(byDomain, keys); DistinctNames(r) && SameEntries(r, entries)
  {
    var r, sorted := InNameOrder(byDomain, keys), SortStrings(keys);
    SortStringsLists(keys, byDomain.Keys);
    forall d ensures d in r <==> d in entries {
      if d in entries {
        assert d.name in sorted;
        var i :| 0 <= i < |sorted| && sorted[i] == d.name;
        assert r[i] == d;
      }
    }
  }
}
