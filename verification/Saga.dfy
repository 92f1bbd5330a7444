/** Applying VNet mutations as a saga: snapshot, mutate, verify, and compensate in reverse on failure. */
module Saga {
  import opened Base

  /** `rest` stands for the alias and the VLAN-aware flag, which an update leaves alone. */
  datatype VNet = VNet(zone: string, tag: int, rest: string)

  datatype Mutation = Mutation(create: bool, name: string, zone: string, tag: int)

  type Store = map<string, VNet>

  type Snapshot = map<string, Option<VNet>>

  function Lookup(vnets: Store, name: string): Option<VNet> {
    if name in vnets then Some(vnets[name]) else None
  }

  predicate Matches(v: Option<VNet>, zone: string, tag: int) {
    v.Some? && v.value.zone == zone && v.value.tag == tag
  }

  predicate MatchesDesired(v: Option<VNet>, m: Mutation) { Matches(v, m.zone, m.tag) }

  predicate DistinctNames(mutations: seq<Mutation>) {
    forall i, j :: 0 <= i < j < |mutations| ==> mutations[i].name != mutations[j].name
  }

  function Names(mutations: seq<Mutation>): set<string> {
    set m | m in mutations :: m.name
  }

  /** A mutation that reaches the cluster: creating needs absence, updating needs presence. */
  function Effect(vnets: Store, m: Mutation): Store {
    if m.create then
      if m.name in vnets then vnets else vnets[m.name := VNet(m.zone, m.tag, "")]
    else
      if m.name in vnets then vnets[m.name := vnets[m.name].(zone := m.zone, tag := m.tag)] else vnets
  }

  // ---- snapshot -----------------------------------------------------------------------------------

  predicate Stale(m: Mutation, vnets: Store) {
    m.create <==> m.name in vnets
  }

  ghost predicate SnapshotOf(snapshot: Snapshot, mutations: seq<Mutation>, vnets: Store) {
    && snapshot.Keys == Names(mutations)
    && (forall name :: name in snapshot ==> snapshot[name] == Lookup(vnets, name))
    && (forall m :: m in mutations ==> !Stale(m, vnets))
  }

  /** Every create names a VNet that is not there, every update one that is. */
  ghost predicate StillFits(mutations: seq<Mutation>, observed: Store) {
    && (forall m :: m in mutations && m.create ==> m.name !in observed)
    && (forall m :: m in mutations && !m.create ==> m.name in observed)
  }

  /** Refuses a plan that no longer fits: a create over an existing VNet, an update over a missing one. */
  method SnapshotVnets(mutations: seq<Mutation>, observed: Store) returns (r: Option<Snapshot>)
    ensures r.Some? <==> StillFits(mutations, observed)
    ensures r.Some? ==> SnapshotOf(r.value, mutations, observed)
    ensures r.Some? ==> forall m :: m in mutations ==>
      m.name in r.value && r.value[m.name] == if m.name in observed then Some(observed[m.name]) else None
  {
    var snapshot: Snapshot := map[];
    for k := 0 to |mutations|
      invariant SnapshotOf(snapshot, mutations[..k], observed)
    {
      var m := mutations[k];
      assert m in mutations;
      if Stale(m, observed) {
        return None;
      }
      snapshot := snapshot[m.name := Lookup(observed, m.name)];
      assert mutations[..k + 1] == mutations[..k] + [m];
    }
    assert mutations[..|mutations|] == mutations;
    r := Some(snapshot);
  }

  // ---- compensation -----------------------------------------------------------------------------------

  /** What compensation finds is this apply's own work, or nothing happened to it. */
  predicate Recognised(m: Mutation, snapshot: Snapshot, current: Option<VNet>)
    requires m.name in snapshot
  {
    || MatchesDesired(current, m)
    || (if m.create then current == None
        else snapshot[m.name].Some? && Matches(current, snapshot[m.name].value.zone, snapshot[m.name].value.tag))
  }

  /** Whether compensation has to write: it found this apply's own form, and that is not how it looked before. */
  predicate NeedsUndo(m: Mutation, snapshot: Snapshot, current: Option<VNet>)
    requires m.name in snapshot
  {
    && MatchesDesired(current, m)
    && (m.create
        || (snapshot[m.name].Some? && !Matches(current, snapshot[m.name].value.zone, snapshot[m.name].value.tag)))
  }

  ghost predicate Fits(snapshot: Snapshot, mutations: seq<Mutation>) {
    forall m :: m in mutations ==> m.name in snapshot && (m.create <==> snapshot[m.name].None?)
  }

  function Undone(m: Mutation, snapshot: Snapshot, current: Option<VNet>): Option<VNet>
    requires m.name in snapshot
  {
    if NeedsUndo(m, snapshot, current) then snapshot[m.name] else current
  }

  /** One step backwards: what this apply made disappears, what it changed is put back. */
  function UndoOne(vnets: Store, m: Mutation, snapshot: Snapshot, found: Option<VNet>): Store
    requires m.name in snapshot
  {
    if !NeedsUndo(m, snapshot, found) then vnets
    else if m.create || snapshot[m.name].None? then vnets - {m.name}
    else vnets[m.name := snapshot[m.name].value]
  }

  /** `done` has been compensated, from what was `observed` at the start. */
  ghost predicate Progress(vnets: Store, observed: Store, done: seq<Mutation>, written: set<string>, snapshot: Snapshot)
    requires Fits(snapshot, done)
  {
    && written <= Names(done)
    && (forall name :: name !in written ==> Lookup(vnets, name) == Lookup(observed, name))
    && (forall m :: m in done ==>
          && Recognised(m, snapshot, Lookup(observed, m.name))
          && (m.name in written <==> NeedsUndo(m, snapshot, Lookup(observed, m.name)))
          && Lookup(vnets, m.name) == Undone(m, snapshot, Lookup(observed, m.name)))
  }

  lemma ProgressStep(vnets: Store, observed: Store, m: Mutation, done: seq<Mutation>, written: set<string>,
                     snapshot: Snapshot)
    requires Fits(snapshot, [m] + done) && Fits(snapshot, done) && Progress(vnets, observed, done, written, snapshot)
    requires m.name !in Names(done) && m.name in snapshot && Recognised(m, snapshot, Lookup(observed, m.name))
    ensures var found := Lookup(observed, m.name);
      Progress(UndoOne(vnets, m, snapshot, found), observed, [m] + done,
               if NeedsUndo(m, snapshot, found) then written + {m.name} else written, snapshot)
  {
    var found := Lookup(observed, m.name);
    var next := UndoOne(vnets, m, snapshot, found);
    assert m in [m] + done;
    forall name | name != m.name ensures Lookup(next, name) == Lookup(vnets, name) { }
    assert Lookup(next, m.name) == Undone(m, snapshot, found);
    forall other | other in done ensures other.name != m.name { }
    assert Names([m] + done) == Names(done) + {m.name};
  }

  class Cluster {
    var vnets: Store

    constructor (vnets: Store)
      ensures this.vnets == vnets
    {
      this.vnets := vnets;
    }

    /** `writesLeft` bounds the writes the cluster accepts. Decisions use what was observed at the start, and a
        VNet that is neither as before nor as this apply wanted it stops the compensation instead of being
        overwritten. */
    method CompensateVnets(mutations: seq<Mutation>, snapshot: Snapshot, writesLeft: nat)
      returns (ok: bool, ghost written: set<string>)
      requires DistinctNames(mutations) && Fits(snapshot, mutations)
      modifies this
      ensures exists k :: 0 <= k <= |mutations| && Progress(vnets, old(vnets), mutations[k..], written, snapshot)
      ensures ok ==> Progress(vnets, old(vnets), mutations, written, snapshot)
      ensures writesLeft >= |mutations| ==>
        (forall m :: m in mutations ==> Recognised(m, snapshot, Lookup(old(vnets), m.name))) ==> ok
    {
      var current := vnets;
      written := {};
      var left := writesLeft;
      assert mutations[|mutations|..] == [];
      for k := 0 to |mutations|
        invariant left + k >= writesLeft
        invariant Progress(vnets, current, mutations[|mutations| - k..], written, snapshot)
      {
        var at := |mutations| - 1 - k;
        var m := mutations[at];
        assert m in mutations;
        assert mutations[at..] == [m] + mutations[at + 1..];
        var found := Lookup(current, m.name);
        if !Recognised(m, snapshot, found) || (NeedsUndo(m, snapshot, found) && left == 0) {
          return false, written;
        }
        ProgressStep(vnets, current, m, mutations[at + 1..], written, snapshot);
        if NeedsUndo(m, snapshot, found) {
          left := left - 1;
          written := written + {m.name};
        }
        vnets := UndoOne(vnets, m, snapshot, found);
      }
      assert mutations[0..] == mutations;
      ok := true;
    }
  }

  /** Compensation writes only to VNets it observed in the very form this apply wanted them to have. */
  lemma WritesOnlyOwn(vnets: Store, observed: Store, done: seq<Mutation>, written: set<string>, snapshot: Snapshot,
                      name: string)
    requires Fits(snapshot, done) && Progress(vnets, observed, done, written, snapshot)
    requires Lookup(vnets, name) != Lookup(observed, name)
    ensures exists m :: m in done && m.name == name && MatchesDesired(Lookup(observed, name), m)
  {
    assert name in written;
    var m :| m in done && m.name == name;
  }

  // ---- what compensation achieves -----------------------------------------------------------------------

  /** The cluster after any subset of the mutations took effect and nobody else wrote. */
  function RunSome(before: Store, mutations: seq<Mutation>, took: set<string>): Store {
    if mutations == [] then before
    else
      var last, front := mutations[|mutations| - 1], RunSome(before, mutations[..|mutations| - 1], took);
      if last.name in took then Effect(front, last) else front
  }

  lemma {:induction false} RunSomeLookup(before: Store, mutations: seq<Mutation>, took: set<string>)
    requires DistinctNames(mutations)
    ensures forall name :: name !in Names(mutations) || name !in took ==>
      Lookup(RunSome(before, mutations, took), name) == Lookup(before, name)
    ensures forall m :: m in mutations && m.name in took ==>
      Lookup(RunSome(before, mutations, took), m.name) == Lookup(Effect(before, m), m.name)
  {
    if mutations != [] {
      var n := |mutations| - 1;
      var front, last := mutations[..n], mutations[n];
      RunSomeLookup(before, front, took);
      assert mutations == front + [last];
      assert last.name !in Names(front);
      assert Names(mutations) == Names(front) + {last.name};
    }
  }

  /** Whatever subset took effect, undoing a mutation gives back what the snapshot saw, alias and flag included. */
  lemma UndoneIsBefore(before: Store, started: seq<Mutation>, took: set<string>, snapshot: Snapshot, m: Mutation)
    requires DistinctNames(started) && m in started && m.name in snapshot
    requires snapshot[m.name] == Lookup(before, m.name) && !Stale(m, before)
    ensures var now := RunSome(before, started, took);
      Recognised(m, snapshot, Lookup(now, m.name)) && Undone(m, snapshot, Lookup(now, m.name)) == Lookup(before, m.name)
  {
    RunSomeLookup(before, started, took);
  }

  ghost predicate Untouched(before: Store, now: Store, mutations: seq<Mutation>) {
    forall m :: m in mutations ==> Lookup(now, m.name) == Lookup(before, m.name)
  }

  /** Of the started mutations the first `k` are compensated: each of those VNets is as before, and the whole cluster is
      exactly when none of the other started mutations changed anything. */
  lemma RestoredExactly(before: Store, after: Store, started: seq<Mutation>, k: nat, took: set<string>,
                        written: set<string>, snapshot: Snapshot)
    requires DistinctNames(started) && SnapshotCovers(snapshot, started, before) && k <= |started|
    requires Fits(snapshot, started[..k])
      && Progress(after, RunSome(before, started, took), started[..k], written, snapshot)
    ensures Untouched(before, after, started[..k])
    ensures after == before <==> Untouched(before, RunSome(before, started, took), started[k..])
  {
    var now := RunSome(before, started, took);
    forall m | m in started[..k] ensures Lookup(after, m.name) == Lookup(before, m.name) {
      assert m in started;
      UndoneIsBefore(before, started, took, snapshot, m);
    }
    RunSomeLookup(before, started, took);
    OthersKept(before, after, started, k, took, written, snapshot);
    if Untouched(before, now, started[k..]) {
      forall name ensures Lookup(after, name) == Lookup(before, name) {
        if name in Names(started) {
          var m :| m in started && m.name == name;
          assert m in started[..k] || m in started[k..];
        }
      }
      SameStore(after, before);
    }
  }

  lemma OthersKept(before: Store, after: Store, started: seq<Mutation>, k: nat, took: set<string>,
                   written: set<string>, snapshot: Snapshot)
    requires DistinctNames(started) && k <= |started| && Fits(snapshot, started[..k])
    requires Progress(after, RunSome(before, started, took), started[..k], written, snapshot)
    ensures forall name :: name !in Names(started[..k]) ==>
      Lookup(after, name) == Lookup(RunSome(before, started, took), name)
    ensures forall m :: m in started[k..] ==> m.name !in Names(started[..k])
    ensures Names(started[..k]) <= Names(started)
  {
    forall m | m in started[k..] ensures m.name !in Names(started[..k]) {
      var j :| 0 <= j < |started| - k && started[k..][j] == m;
      forall i | 0 <= i < k ensures started[i].name != m.name { assert started[k + j] == m; }
    }
    forall name | name in Names(started[..k]) ensures name in Names(started) {
      var m :| m in started[..k] && m.name == name;
      assert m in started;
    }
  }

  ghost predicate SnapshotCovers(snapshot: Snapshot, started: seq<Mutation>, before: Store) {
    forall m :: m in started ==> m.name in snapshot && snapshot[m.name] == Lookup(before, m.name) && !Stale(m, before)
  }

  lemma SameStore(a: Store, b: Store)
    requires forall name :: Lookup(a, name) == Lookup(b, name)
    ensures a == b
  {
    forall name ensures name in a <==> name in b {
      assert Lookup(a, name) == Lookup(b, name);
    }
    forall name | name in a ensures a[name] == b[name] {
      assert Lookup(a, name) == Lookup(b, name);
    }
  }
}
