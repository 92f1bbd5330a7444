/** Writing one VM's firewall through an interface that renumbers on delete and inserts at the top. */
module VmFirewallApply {
  import opened Base
  import opened Slots
  import opened VmFirewall

  ghost predicate DistinctCidrs(ipset: seq<Entry>) {
    forall i, j :: 0 <= i < j < |ipset| ==> ipset[i].cidr != ipset[j].cidr
  }

  /** The stored entries are exactly the listed ones, each with its own flag. */
  ghost predicate Holds(entries: map<Cidr, bool>, ipset: seq<Entry>) {
    && (forall e :: e in ipset ==> e.cidr in entries && entries[e.cidr] == e.nomatch)
    && (forall c :: c in entries ==> exists e :: e in ipset && e.cidr == c)
  }

  function Descending(pos: nat): int { 0 - pos }

  function Countdown(n: nat): (r: seq<nat>)
    ensures |r| == n && forall k :: 0 <= k < n ==> r[k] == n - 1 - k
  {
    seq(n, k requires 0 <= k < n => n - 1 - k)
  }

  ghost predicate ListsPositions(positions: seq<nat>, n: nat) {
    Distinct(positions) && forall p: nat :: p in positions <==> p < n
  }

  /** However the positions are listed, sorting them from the highest down counts down to zero. */
  lemma SortedPositions(positions: seq<nat>, n: nat)
    requires ListsPositions(positions, n)
    ensures SortBy(Descending, positions) == Countdown(n)
  {
    var down := Countdown(n);
    SortByKeeps(Descending, positions);
    forall p: nat ensures p in positions <==> p in down {
      if p < n { assert down[n - 1 - p] == p; }
    }
    assert Distinct(down);
    SameElements(positions, down);
    SortedUnique(Descending, down, SortBy(Descending, positions));
  }

  lemma {:induction false} ListedSize<T(!new)>(s: seq<T>, all: set<T>)
    requires Lists(s, all)
    ensures |all| == |s|
  {
    if s == [] {
      assert all == {};
    } else {
      var n := |s| - 1;
      assert s == s[..n] + [s[n]];
      ListedSize(s[..n], all - {s[n]});
    }
  }

  function CidrsOf(ipset: seq<Entry>): (r: seq<Cidr>)
    ensures |r| == |ipset| && forall k :: 0 <= k < |ipset| ==> r[k] == ipset[k].cidr
  {
    seq(|ipset|, k requires 0 <= k < |ipset| => ipset[k].cidr)
  }

  function Ahead(cidrs: seq<Cidr>, k: nat): set<Cidr>
    requires k <= |cidrs|
  {
    if k == 0 then {} else Ahead(cidrs, k - 1) + {cidrs[k - 1]}
  }

  lemma {:induction false} AheadMembers(cidrs: seq<Cidr>, k: nat)
    requires k <= |cidrs|
    ensures forall c :: c in Ahead(cidrs, k) <==> c in cidrs[..k]
  {
    if k > 0 {
      AheadMembers(cidrs, k - 1);
      assert cidrs[..k] == cidrs[..k - 1] + [cidrs[k - 1]];
    }
  }

  lemma NextIsNew(cidrs: seq<Cidr>, k: nat)
    requires k < |cidrs| && Distinct(cidrs)
    ensures cidrs[k] !in Ahead(cidrs, k)
  {
    AheadMembers(cidrs, k);
  }

  lemma AheadAll(cidrs: seq<Cidr>)
    ensures forall c :: c in Ahead(cidrs, |cidrs|) <==> c in cidrs
  {
    AheadMembers(cidrs, |cidrs|);
    assert cidrs[..|cidrs|] == cidrs;
  }

  lemma TwoParts(all: set<Cidr>, some: set<Cidr>)
    ensures |all| == |all - some| + |all * some|
  {
    assert all == (all - some) + (all * some);
  }

  /** What deleting the stale ones of all listed entries leaves, and how many deletions that takes. */
  lemma StaleAndWanted(existing: seq<Cidr>, keys: set<Cidr>, desired: set<Cidr>)
    requires Lists(existing, keys)
    ensures Distinct(existing)
    ensures forall k :: 0 <= k < |existing| ==> existing[k] in keys
    ensures forall k :: 0 <= k < |existing| ==> (existing[k] in keys - desired <==> existing[k] !in desired)
    ensures keys - (Ahead(existing, |existing|) - desired) == keys * desired
    ensures Met(existing, |existing|, keys - desired) == |keys| - |keys * desired|
  {
    AheadAll(existing);
    assert Ahead(existing, |existing|) == keys;
    MetAll(existing, keys - desired);
    TwoParts(keys, desired);
  }

  /** How many of the first `k` are among those found. */
  function Met(cidrs: seq<Cidr>, k: nat, found: set<Cidr>): nat
    requires k <= |cidrs|
  {
    if k == 0 then 0 else Met(cidrs, k - 1, found) + if cidrs[k - 1] in found then 1 else 0
  }

  lemma {:induction false} MetGrows(cidrs: seq<Cidr>, k: nat, n: nat, found: set<Cidr>)
    requires k <= n <= |cidrs|
    ensures Met(cidrs, k, found) <= Met(cidrs, n, found)
  {
    if k < n { MetGrows(cidrs, k, n - 1, found); }
  }

  /** Listed without repetition, all that were found are met once. */
  lemma {:induction false} MetAll(cidrs: seq<Cidr>, found: set<Cidr>)
    requires Distinct(cidrs) && forall c :: c in found ==> c in cidrs
    ensures Met(cidrs, |cidrs|, found) == |found|
  {
    if cidrs == [] {
      assert found == {};
    } else {
      var n := |cidrs| - 1;
      var front, last := cidrs[..n], cidrs[n];
      assert cidrs == front + [last];
      MetAll(front, found - {last});
      MetSame(front, cidrs, n, found - {last}, found);
    }
  }

  lemma {:induction false} MetSame(a: seq<Cidr>, b: seq<Cidr>, k: nat, found: set<Cidr>, more: set<Cidr>)
    requires k <= |a| && k <= |b|
    requires forall j :: 0 <= j < k ==> a[j] == b[j] && (a[j] in found <==> a[j] in more)
    ensures Met(a, k, found) == Met(b, k, more)
  {
    if k > 0 { MetSame(a, b, k - 1, found, more); }
  }

  lemma DesiredCidrs(ipset: seq<Entry>, desired: set<Cidr>)
    requires desired == set e | e in ipset :: e.cidr
    ensures forall c :: c in desired <==> c in CidrsOf(ipset)
  {
    forall c | c in desired ensures c in CidrsOf(ipset) {
      var e :| e in ipset && e.cidr == c;
      var j :| 0 <= j < |ipset| && ipset[j] == e;
      assert CidrsOf(ipset)[j] == c;
    }
  }

  ghost predicate Written(entries: map<Cidr, bool>, ipset: seq<Entry>, k: nat) {
    k <= |ipset| && forall j :: 0 <= j < k ==> ipset[j].cidr in entries && entries[ipset[j].cidr] == ipset[j].nomatch
  }

  lemma WrittenStep(entries: map<Cidr, bool>, ipset: seq<Entry>, k: nat)
    requires k < |ipset| && Written(entries, ipset, k) && Distinct(CidrsOf(ipset))
    ensures Written(entries[ipset[k].cidr := ipset[k].nomatch], ipset, k + 1)
  {
    forall j | 0 <= j < k ensures ipset[j].cidr != ipset[k].cidr {
      assert CidrsOf(ipset)[j] != CidrsOf(ipset)[k];
    }
  }

  lemma AllWritten(entries: map<Cidr, bool>, ipset: seq<Entry>)
    requires Written(entries, ipset, |ipset|) && forall c :: c in entries ==> c in CidrsOf(ipset)
    ensures Holds(entries, ipset)
  {
    forall c | c in entries ensures exists e :: e in ipset && e.cidr == c {
      var k :| 0 <= k < |ipset| && CidrsOf(ipset)[k] == c;
      assert ipset[k] in ipset;
    }
  }

  /** Nothing to do; written and seen; an error from a write; an error from the observation behind them. */
  datatype Outcome = Unneeded | Changed | NotWritten | NotConverged

  /** `writesLeft` is how many further writes the environment lets through; every later one fails. */
  class GuestFirewall {
    var hasIpSet: bool
    var entries: map<Cidr, bool>
    var rules: seq<Rule>
    var options: Options
    var writesLeft: nat

    ghost predicate Valid() reads this { !hasIpSet ==> entries == map[] }

    method CreateIpSet() returns (ok: bool)
      requires Valid()
      modifies this`hasIpSet, this`writesLeft
      ensures Valid()
      ensures ok <==> old(writesLeft) > 0 && !old(hasIpSet)
      ensures hasIpSet == (old(hasIpSet) || ok)
      ensures writesLeft == if ok then old(writesLeft) - 1 else old(writesLeft)
    {
      ok := writesLeft > 0 && !hasIpSet;
      if ok { hasIpSet, writesLeft := true, writesLeft - 1; }
    }

    method DeleteEntry(cidr: Cidr) returns (ok: bool)
      requires Valid()
      modifies this`entries, this`writesLeft
      ensures Valid()
      ensures ok <==> old(writesLeft) > 0 && cidr in old(entries)
      ensures entries == if ok then old(entries) - {cidr} else old(entries)
      ensures writesLeft == if ok then old(writesLeft) - 1 else old(writesLeft)
    {
      ok := writesLeft > 0 && cidr in entries;
      if ok { entries, writesLeft := entries - {cidr}, writesLeft - 1; }
    }

    method CreateEntry(entry: Entry) returns (ok: bool)
      requires Valid()
      modifies this`entries, this`writesLeft
      ensures Valid()
      ensures ok <==> old(writesLeft) > 0 && hasIpSet && entry.cidr !in old(entries)
      ensures entries == if ok then old(entries)[entry.cidr := entry.nomatch] else old(entries)
      ensures writesLeft == if ok then old(writesLeft) - 1 else old(writesLeft)
    {
      ok := writesLeft > 0 && hasIpSet && entry.cidr !in entries;
      if ok { entries, writesLeft := entries[entry.cidr := entry.nomatch], writesLeft - 1; }
    }

    method DeleteRule(pos: nat) returns (ok: bool)
      modifies this`rules, this`writesLeft
      ensures ok <==> old(writesLeft) > 0 && pos < |old(rules)|
      ensures rules == if ok then old(rules)[..pos] + old(rules)[pos + 1..] else old(rules)
      ensures writesLeft == if ok then old(writesLeft) - 1 else old(writesLeft)
    {
      ok := writesLeft > 0 && pos < |rules|;
      if ok { rules, writesLeft := rules[..pos] + rules[pos + 1..], writesLeft - 1; }
    }

    method CreateRule(rule: Rule) returns (ok: bool)
      modifies this`rules, this`writesLeft
      ensures ok <==> old(writesLeft) > 0
      ensures rules == if ok then [rule] + old(rules) else old(rules)
      ensures writesLeft == if ok then old(writesLeft) - 1 else old(writesLeft)
    {
      ok := writesLeft > 0;
      if ok { rules, writesLeft := [rule] + rules, writesLeft - 1; }
    }

    method UpdateOptions(o: Options) returns (ok: bool)
      modifies this`options, this`writesLeft
      ensures ok <==> old(writesLeft) > 0
      ensures options == if ok then o else old(options)
      ensures writesLeft == if ok then old(writesLeft) - 1 else old(writesLeft)
    {
      ok := writesLeft > 0;
      if ok { options, writesLeft := o, writesLeft - 1; }
    }

    /** Entries nobody wants go first; each wanted entry is then recreated, because its flag may be stale. */
    method WriteIpSet(ipset: seq<Entry>, existing: seq<Cidr>) returns (ok: bool)
      requires Valid() && Lists(existing, entries.Keys) && DistinctCidrs(ipset)
      modifies this`hasIpSet, this`entries, this`writesLeft
      ensures Valid()
      ensures ok ==> hasIpSet && Holds(entries, ipset)
      ensures ok <==> old(writesLeft) >= (if old(hasIpSet) then 0 else 1) + |existing| + |ipset|
      ensures ok ==> writesLeft == old(writesLeft) - (if old(hasIpSet) then 0 else 1) - |existing| - |ipset|
    {
      ListedSize(existing, entries.Keys);
      if !hasIpSet {
        ok := CreateIpSet();
        if !ok { return; }
      }
      ok := Rewrite(ipset, existing);
    }

    method Rewrite(ipset: seq<Entry>, existing: seq<Cidr>) returns (ok: bool)
      requires Valid() && hasIpSet && Lists(existing, entries.Keys) && DistinctCidrs(ipset)
      modifies this`entries, this`writesLeft
      ensures Valid()
      ensures ok ==> Holds(entries, ipset)
      ensures ok <==> old(writesLeft) >= |old(entries.Keys)| + |ipset|
      ensures ok ==> writesLeft == old(writesLeft) - |old(entries.Keys)| - |ipset|
    {
      var desired := set e | e in ipset :: e.cidr;
      DesiredCidrs(ipset, desired);
      StaleAndWanted(existing, entries.Keys, desired);
      ok := DropStale(existing, desired, entries.Keys - desired);
      if !ok { return; }
      ok := RecreateEntries(ipset);
    }

    /** `stale` are the entries nobody wants. */
    method DropStale(existing: seq<Cidr>, desired: set<Cidr>, ghost stale: set<Cidr>) returns (ok: bool)
      requires Valid() && hasIpSet && Distinct(existing)
      requires forall k :: 0 <= k < |existing| ==> existing[k] in entries
      requires forall k :: 0 <= k < |existing| ==> (existing[k] in stale <==> existing[k] !in desired)
      modifies this`entries, this`writesLeft
      ensures Valid()
      ensures ok ==> entries.Keys == old(entries.Keys) - (Ahead(existing, |existing|) - desired)
      ensures ok ==> writesLeft == old(writesLeft) - Met(existing, |existing|, stale)
      ensures ok <==> old(writesLeft) >= Met(existing, |existing|, stale)
    {
      ghost var start := entries.Keys;
      for k := 0 to |existing|
        invariant entries.Keys == start - (Ahead(existing, k) - desired)
        invariant writesLeft + Met(existing, k, stale) == old(writesLeft)
      {
        NextIsNew(existing, k);
        MetGrows(existing, k + 1, |existing|, stale);
        if existing[k] !in desired {
          ok := DeleteEntry(existing[k]);
          if !ok { return; }
        }
      }
      ok := true;
    }

    /** Removed first if it is there. */
    method RecreateEntry(entry: Entry) returns (ok: bool)
      requires Valid() && hasIpSet
      modifies this`entries, this`writesLeft
      ensures Valid()
      ensures ok <==> old(writesLeft) >= if entry.cidr in old(entries) then 2 else 1
      ensures ok ==> entries == old(entries)[entry.cidr := entry.nomatch]
      ensures ok ==> writesLeft == old(writesLeft) - if entry.cidr in old(entries) then 2 else 1
    {
      if entry.cidr in entries {
        ok := DeleteEntry(entry.cidr);
        if !ok { return; }
      }
      ok := CreateEntry(entry);
      assert ok ==> entries == old(entries)[entry.cidr := entry.nomatch];
    }

    method RecreateEntries(ipset: seq<Entry>) returns (ok: bool)
      requires Valid() && hasIpSet && DistinctCidrs(ipset)
      requires forall c :: c in entries ==> c in CidrsOf(ipset)
      modifies this`entries, this`writesLeft
      ensures Valid()
      ensures ok ==> Holds(entries, ipset)
      ensures ok <==> old(writesLeft) >= |old(entries.Keys)| + |ipset|
      ensures ok ==> writesLeft == old(writesLeft) - |old(entries.Keys)| - |ipset|
    {
      MetAll(CidrsOf(ipset), entries.Keys);
      AheadAll(CidrsOf(ipset));
      ok := RecreateEach(ipset, CidrsOf(ipset), entries.Keys);
      if ok { AllWritten(entries, ipset); }
    }

    method RecreateEach(ipset: seq<Entry>, ghost cidrs: seq<Cidr>, ghost found: set<Cidr>) returns (ok: bool)
      requires Valid() && hasIpSet && cidrs == CidrsOf(ipset) && Distinct(cidrs) && found == entries.Keys
      modifies this`entries, this`writesLeft
      ensures Valid()
      ensures ok ==> Written(entries, ipset, |ipset|) && entries.Keys == found + Ahead(cidrs, |ipset|)
      ensures ok <==> old(writesLeft) >= Met(cidrs, |ipset|, found) + |ipset|
      ensures ok ==> writesLeft == old(writesLeft) - Met(cidrs, |ipset|, found) - |ipset|
    {
      for k := 0 to |ipset|
        invariant Valid() && hasIpSet && entries.Keys == found + Ahead(cidrs, k)
        invariant Written(entries, ipset, k)
        invariant writesLeft + k + Met(cidrs, k, found) == old(writesLeft)
      {
        NextIsNew(cidrs, k);
        MetGrows(cidrs, k + 1, |ipset|, found);
        WrittenStep(entries, ipset, k);
        ok := RecreateEntry(ipset[k]);
        if !ok { return; }
      }
      ok := true;
    }

    /** Highest position first, because every delete renumbers what follows. */
    method DeleteRules(positions: seq<nat>) returns (ok: bool)
      requires ListsPositions(positions, |rules|)
      modifies this`rules, this`writesLeft
      ensures ok ==> rules == []
      ensures ok ==> writesLeft + |old(rules)| == old(writesLeft)
      ensures ok <==> old(writesLeft) >= |old(rules)|
    {
      var n := |rules|;
      SortedPositions(positions, n);
      var order := SortBy(Descending, positions);
      for k := 0 to n
        invariant rules == old(rules)[..n - k]
        invariant writesLeft + k == old(writesLeft)
      {
        ok := DeleteRule(order[k]);
        if !ok { return; }
      }
      ok := true;
    }

    /** Backwards, because each new rule lands on top. */
    method CreateRules(wanted: seq<Rule>) returns (ok: bool)
      modifies this`rules, this`writesLeft
      ensures ok ==> rules == wanted + old(rules)
      ensures ok ==> writesLeft + |wanted| == old(writesLeft)
      ensures ok <==> old(writesLeft) >= |wanted|
    {
      for k := 0 to |wanted|
        invariant rules == wanted[|wanted| - k..] + old(rules)
        invariant writesLeft + k == old(writesLeft)
      {
        ok := CreateRule(wanted[|wanted| - 1 - k]);
        if !ok { return; }
      }
      ok := true;
    }

    /** `converged` and `holds` are the planner's verdicts on the guest as found and as observed at the end. `existing`
        and `positions` are the replies to the two listings, in whatever order they came. A failing write never switches
        anything on, and never leaves a rule changed while the source filter is still the old one; a failing
        observation at the end takes nothing back. */
    method ApplyVmFirewall(policy: Policy, converged: bool, existing: seq<Cidr>, positions: seq<nat>, holds: bool)
      returns (outcome: Outcome)
      requires Valid() && DistinctCidrs(policy.ipset)
      requires Lists(existing, entries.Keys) && ListsPositions(positions, |rules|)
      modifies this
      ensures Valid()
      ensures outcome == Unneeded <==> converged
      ensures converged ==> unchanged(this)
      ensures outcome in {Changed, NotConverged} ==>
        hasIpSet && Holds(entries, policy.ipset) && rules == policy.rules && options == policy.options
      ensures (outcome == Changed ==> holds) && (outcome == NotConverged ==> !holds)
      ensures outcome == NotWritten ==> options == old(options)
      ensures rules != old(rules) ==> hasIpSet && Holds(entries, policy.ipset)
      ensures outcome == NotWritten <==>
        && !converged
        && old(writesLeft) <
           (if old(hasIpSet) then 0 else 1) + |existing| + |policy.ipset| + |old(rules)| + |policy.rules| + 1
    {
      if converged {
        return Unneeded;
      }
      var ok := WriteIpSet(policy.ipset, existing);
      if !ok { return NotWritten; }
      ok := DeleteRules(positions);
      if !ok { return NotWritten; }
      ok := CreateRules(policy.rules);
      if !ok { return NotWritten; }
      ok := UpdateOptions(policy.options);
      outcome := if !ok then NotWritten else if holds then Changed else NotConverged;
    }
  }
}
