/** The apply attempt around the saga: execute with checkpoints, mark failures, compensate what was marked. */
module SagaDriver {
  import opened Base
  import opened Saga

  datatype ActionState = Waiting | Applying | Succeeded | FailedAction

  datatype Outcome = Invalid | Applied | Compensated | CompensationFailed | ApplyFailed

  /** What goes wrong, and when. Step k < n is mutation k, step n the SDN apply, step n+1+k the checkpoint of success k.
      `early` means the failing mutation's own checkpoint failed, so its call was never made. `took` are the calls that
      reached the cluster, answered or not. `marks` checkpoints succeed while failures are being marked; `compensating`
      and `closing` are the checkpoints before and behind the compensation. */
  datatype Faults =
    Faults(stop: nat, early: bool, took: set<string>, marks: nat, compensating: bool, writesLeft: nat, closing: bool)

  function Least(a: nat, b: nat): nat { if a < b then a else b }

  /** How many mutations were started before the run failed, if it failed at step `stop`. */
  function StartedCount(n: nat, f: Faults): nat {
    if f.stop >= n then n else if f.early then f.stop else f.stop + 1
  }

  /** A checkpoint that throws while marking failures has still marked its own action, but none after it. */
  function MarkedCount(n: nat, f: Faults): nat {
    Least(StartedCount(n, f), f.marks + 1)
  }

  /** Marked are the started ones up to where a checkpoint throws. */
  lemma MarkedCountExactly(n: nat, f: Faults, k: nat)
    requires k < n
    ensures k < MarkedCount(n, f) <==> (k < f.stop || (k == f.stop && !f.early)) && k <= f.marks
  { }

  predicate Converged(vnets: Store, mutations: seq<Mutation>) {
    forall k :: 0 <= k < |mutations| ==> MatchesDesired(Lookup(vnets, mutations[k].name), mutations[k])
  }

  /** An empty list is done before anything could fail. */
  predicate Completes(before: Store, mutations: seq<Mutation>, f: Faults) {
    mutations == [] || (f.stop > 2 * |mutations| && Converged(RunSome(before, mutations, f.took), mutations))
  }

  ghost predicate NoneFailed(states: map<string, ActionState>) {
    forall name :: name in states ==> states[name] != FailedAction
  }

  ghost predicate MarkedExactly(states: map<string, ActionState>, mutations: seq<Mutation>, count: nat) {
    && states.Keys == Names(mutations)
    && forall k :: 0 <= k < |mutations| ==> (states[mutations[k].name] == FailedAction <==> k < count)
  }

  /** None of the mutations that were started but never marked changed anything. */
  ghost predicate UnmarkedQuiet(before: Store, mutations: seq<Mutation>, f: Faults) {
    var s := StartedCount(|mutations|, f);
    Untouched(before, RunSome(before, mutations[..s], f.took), mutations[MarkedCount(|mutations|, f)..s])
  }

  /** What a compensation that ran to its end leaves: every marked VNet is as before, and the cluster is exactly
      when the unmarked started mutations changed nothing. */
  ghost predicate PutBack(before: Store, after: Store, mutations: seq<Mutation>, f: Faults) {
    && Untouched(before, after, mutations[..MarkedCount(|mutations|, f)])
    && (after == before <==> UnmarkedQuiet(before, mutations, f))
  }

  /** Each VNet named is changed exactly when the run got to it, past its own checkpoint, and the call arrived. */
  ghost predicate TookEffect(after: Store, before: Store, mutations: seq<Mutation>, f: Faults) {
    forall k :: 0 <= k < |mutations| ==>
      var m := mutations[k];
      var reached := (k < f.stop || (k == f.stop && !f.early)) && m.name in f.took;
      Lookup(after, m.name) == Lookup(if reached then Effect(before, m) else before, m.name)
  }

  /** Nothing failed, and every call reached the cluster. */
  predicate Undisturbed(mutations: seq<Mutation>, f: Faults) {
    f.stop > 2 * |mutations| && forall m :: m in mutations ==> m.name in f.took
  }

  /** Created VNets are as wanted, updated ones have the wanted zone and tag and keep the rest, and no other moved. */
  ghost predicate AppliedTo(after: Store, before: Store, mutations: seq<Mutation>) {
    && (forall m :: m in mutations ==> m.name in after && after[m.name].zone == m.zone && after[m.name].tag == m.tag)
    && (forall m :: m in mutations && !m.create ==> m.name in before && after[m.name].rest == before[m.name].rest)
    && (forall name :: (forall m :: m in mutations ==> m.name != name) ==>
          (name in after <==> name in before) && (name in after ==> after[name] == before[name]))
  }

  class Attempt {
    const cluster: Cluster
    var states: map<string, ActionState>

    constructor (cluster: Cluster)
      ensures this.cluster == cluster
    {
      this.cluster := cluster;
      states := map[];
    }

    method MarkFailed(mutations: seq<Mutation>, f: Faults)
      requires DistinctNames(mutations) && states.Keys == Names(mutations)
      requires NoneFailed(states)
      modifies this`states
      ensures MarkedExactly(states, mutations, MarkedCount(|mutations|, f))
    {
      var started := StartedCount(|mutations|, f);
      for k := 0 to started
        invariant states.Keys == Names(mutations) && k <= f.marks
        invariant forall j :: 0 <= j < |mutations| ==> (states[mutations[j].name] == FailedAction <==> j < k)
      {
        assert mutations[k] in mutations;
        states := states[mutations[k].name := FailedAction];
        if k == f.marks {
          return;
        }
      }
    }

    method RunMutations(mutations: seq<Mutation>, f: Faults) returns (ok: bool)
      requires DistinctNames(mutations) && states.Keys == Names(mutations) && NoneFailed(states)
      modifies this`states, cluster
      ensures states.Keys == Names(mutations) && NoneFailed(states)
      ensures cluster.vnets == RunSome(old(cluster.vnets), mutations[..StartedCount(|mutations|, f)], f.took)
      ensures ok <==> Completes(old(cluster.vnets), mutations, f)
      ensures TookEffect(cluster.vnets, old(cluster.vnets), mutations, f)
    {
      StartedEffects(cluster.vnets, mutations, f);
      if mutations == [] {
        return true;
      }
      ok := CallMutations(mutations, f);
      assert mutations[..|mutations|] == mutations;
      if !ok || f.stop == |mutations| || !Converged(cluster.vnets, mutations) {
        return false;
      }
      ok := MarkSucceeded(mutations, f);
    }

    method CallMutations(mutations: seq<Mutation>, f: Faults) returns (ok: bool)
      requires states.Keys == Names(mutations) && NoneFailed(states)
      modifies this`states, cluster
      ensures states.Keys == Names(mutations) && NoneFailed(states)
      ensures ok <==> f.stop >= |mutations|
      ensures cluster.vnets == RunSome(old(cluster.vnets), mutations[..StartedCount(|mutations|, f)], f.took)
    {
      for k := 0 to |mutations|
        invariant k <= f.stop
        invariant states.Keys == Names(mutations) && NoneFailed(states)
        invariant cluster.vnets == RunSome(old(cluster.vnets), mutations[..k], f.took)
      {
        var m := mutations[k];
        assert m in mutations;
        assert mutations[..k + 1][..k] == mutations[..k];
        states := states[m.name := Applying];
        if k == f.stop && f.early {
          return false;
        }
        if m.name in f.took {
          cluster.vnets := Effect(cluster.vnets, m);
        }
        if k == f.stop {
          return false;
        }
      }
      ok := true;
    }

    method MarkSucceeded(mutations: seq<Mutation>, f: Faults) returns (ok: bool)
      requires states.Keys == Names(mutations) && NoneFailed(states) && f.stop > |mutations|
      modifies this`states
      ensures states.Keys == Names(mutations) && NoneFailed(states)
      ensures ok <==> f.stop > 2 * |mutations|
    {
      for k := 0 to |mutations|
        invariant |mutations| + k < f.stop
        invariant states.Keys == Names(mutations) && NoneFailed(states)
      {
        assert mutations[k] in mutations;
        states := states[mutations[k].name := Succeeded];
        if f.stop == |mutations| + 1 + k {
          return false;
        }
      }
      ok := true;
    }

    method StartedMutations(mutations: seq<Mutation>, ghost count: nat) returns (failed: seq<Mutation>)
      requires MarkedExactly(states, mutations, count) && count <= |mutations|
      ensures failed == mutations[..count]
    {
      failed := [];
      for k := 0 to |mutations|
        invariant failed == mutations[..if k < count then k else count]
      {
        assert mutations[k] in mutations;
        if states[mutations[k].name] == FailedAction {
          failed := failed + [mutations[k]];
        }
      }
    }

    /** Only the applied outcome leaves the cluster changed on purpose. `CompensationFailed` does not say that
        anything is left to undo: a compensation that ran to its end reports it too when the closing checkpoint
        fails. */
    method ApplyProxmoxVnetActions(mutations: seq<Mutation>, f: Faults) returns (outcome: Outcome)
      modifies this`states, cluster
      ensures outcome == Invalid <==>
        exists i, j :: 0 <= i < j < |mutations| && mutations[i].name == mutations[j].name
      ensures outcome == Applied <==>
        outcome != Invalid && StillFits(mutations, old(cluster.vnets)) && Completes(old(cluster.vnets), mutations, f)
      ensures outcome == ApplyFailed <==>
        && outcome != Invalid
        && (!StillFits(mutations, old(cluster.vnets))
            || (!Completes(old(cluster.vnets), mutations, f) && StartedCount(|mutations|, f) == 0))
      ensures outcome != Invalid && StillFits(mutations, old(cluster.vnets)) && Undisturbed(mutations, f) ==>
        outcome == Applied
      ensures outcome == Applied ==> AppliedTo(cluster.vnets, old(cluster.vnets), mutations)
      ensures outcome in {Invalid, ApplyFailed} ==> cluster.vnets == old(cluster.vnets)
      ensures outcome == Compensated ==>
        f.compensating && f.closing && PutBack(old(cluster.vnets), cluster.vnets, mutations, f)
      ensures outcome in {Compensated, CompensationFailed} && f.compensating && f.writesLeft >= |mutations| ==>
        (outcome == Compensated <==> f.closing) && PutBack(old(cluster.vnets), cluster.vnets, mutations, f)
      ensures f.marks + 1 >= StartedCount(|mutations|, f) && outcome == Compensated ==>
        cluster.vnets == old(cluster.vnets)
    {
      if !DistinctNames(mutations) {
        return Invalid;
      }
      ghost var before := cluster.vnets;
      var snapshot := SnapshotVnets(mutations, cluster.vnets);
      if snapshot.None? {
        return ApplyFailed;
      }
      states := map name | name in Names(mutations) :: Waiting;
      outcome := Run(before, mutations, f, snapshot.value);
    }

    /** The mutations, and what follows a run that does not complete. */
    method Run(ghost before: Store, mutations: seq<Mutation>, f: Faults, snapshot: Snapshot) returns (outcome: Outcome)
      requires DistinctNames(mutations) && SnapshotOf(snapshot, mutations, before) && StillFits(mutations, before)
      requires states == map name | name in Names(mutations) :: Waiting
      requires cluster.vnets == before
      modifies this`states, cluster
      ensures outcome in {Applied, ApplyFailed, Compensated, CompensationFailed}
      ensures outcome == Applied <==> Completes(before, mutations, f)
      ensures outcome == ApplyFailed <==> !Completes(before, mutations, f) && StartedCount(|mutations|, f) == 0
      ensures Undisturbed(mutations, f) ==> outcome == Applied
      ensures outcome == Applied ==> AppliedTo(cluster.vnets, before, mutations)
      ensures outcome == ApplyFailed ==> cluster.vnets == before
      ensures outcome == Compensated ==> f.compensating && f.closing && PutBack(before, cluster.vnets, mutations, f)
      ensures outcome in {Compensated, CompensationFailed} && f.compensating && f.writesLeft >= |mutations| ==>
        (outcome == Compensated <==> f.closing) && PutBack(before, cluster.vnets, mutations, f)
    {
      var ok := RunMutations(mutations, f);
      if ok {
        AppliedMeans(before, mutations, f);
        return Applied;
      }
      if Undisturbed(mutations, f) { AllTaken(before, mutations, f); }
      outcome := Recover(before, mutations, f, snapshot);
    }

    method Recover(ghost before: Store, mutations: seq<Mutation>, f: Faults, snapshot: Snapshot)
      returns (outcome: Outcome)
      requires DistinctNames(mutations) && SnapshotOf(snapshot, mutations, before)
      requires states.Keys == Names(mutations) && NoneFailed(states)
      requires cluster.vnets == RunSome(before, mutations[..StartedCount(|mutations|, f)], f.took)
      modifies this`states, cluster
      ensures outcome in {ApplyFailed, Compensated, CompensationFailed}
      ensures outcome == ApplyFailed <==> StartedCount(|mutations|, f) == 0
      ensures outcome == ApplyFailed ==> cluster.vnets == before
      ensures outcome == Compensated ==> f.compensating && f.closing && PutBack(before, cluster.vnets, mutations, f)
      ensures outcome != ApplyFailed && f.compensating && f.writesLeft >= |mutations| ==>
        (outcome == Compensated <==> f.closing) && PutBack(before, cluster.vnets, mutations, f)
    {
      MarkFailed(mutations, f);
      ghost var s, count := StartedCount(|mutations|, f), MarkedCount(|mutations|, f);
      ghost var started := mutations[..s];
      var failed := StartedMutations(mutations, count);
      Covered(mutations, s, count, snapshot, before);
      assert failed == started[..count];
      assert started[count..] == mutations[count..s];
      if |failed| == 0 {
        assert started == [];
        return ApplyFailed;
      }
      if !f.compensating {
        return CompensationFailed;
      }
      var restored := Compensate(before, started, failed, f, snapshot);
      outcome := if restored && f.closing then Compensated else CompensationFailed;
    }

    method Compensate(ghost before: Store, ghost started: seq<Mutation>, failed: seq<Mutation>, f: Faults,
                      snapshot: Snapshot)
      returns (restored: bool)
      requires DistinctNames(started) && SnapshotCovers(snapshot, started, before) && failed <= started
      requires Fits(snapshot, failed) && DistinctNames(failed)
      requires cluster.vnets == RunSome(before, started, f.took)
      modifies cluster
      ensures f.writesLeft >= |failed| ==> restored
      ensures restored ==>
        && Untouched(before, cluster.vnets, failed)
        && (cluster.vnets == before <==> Untouched(before, RunSome(before, started, f.took), started[|failed|..]))
    {
      ghost var now := cluster.vnets;
      forall m | m in failed ensures Recognised(m, snapshot, Lookup(now, m.name)) {
        assert m in started;
        UndoneIsBefore(before, started, f.took, snapshot, m);
      }
      var ok, written := cluster.CompensateVnets(failed, snapshot, f.writesLeft);
      if !ok {
        return false;
      }
      assert failed == started[..|failed|];
      RestoredExactly(before, cluster.vnets, started, |failed|, f.took, written, snapshot);
      restored := forall k :: 0 <= k < |failed| ==> IsRestored(failed[k], snapshot, cluster.vnets);
      forall k | 0 <= k < |failed| ensures IsRestored(failed[k], snapshot, cluster.vnets) {
        assert failed[k] in failed && failed[k] in started;
      }
    }
  }

  /** What the polling after a compensation looks for. */
  predicate IsRestored(m: Mutation, snapshot: Snapshot, vnets: Store) {
    m.name in snapshot &&
    if snapshot[m.name].Some? then
      Matches(Lookup(vnets, m.name), snapshot[m.name].value.zone, snapshot[m.name].value.tag)
    else Lookup(vnets, m.name) == None
  }

  lemma AllTaken(before: Store, mutations: seq<Mutation>, f: Faults)
    requires DistinctNames(mutations) && StillFits(mutations, before) && Undisturbed(mutations, f)
    ensures Completes(before, mutations, f)
  {
    RunSomeLookup(before, mutations, f.took);
    forall k | 0 <= k < |mutations|
      ensures MatchesDesired(Lookup(RunSome(before, mutations, f.took), mutations[k].name), mutations[k])
    {
      assert mutations[k] in mutations;
    }
  }

  lemma StartedEffects(before: Store, mutations: seq<Mutation>, f: Faults)
    requires DistinctNames(mutations)
    ensures TookEffect(RunSome(before, mutations[..StartedCount(|mutations|, f)], f.took), before, mutations, f)
  {
    var s := StartedCount(|mutations|, f);
    var started := mutations[..s];
    RunSomeLookup(before, started, f.took);
    forall k | s <= k < |mutations| ensures mutations[k].name !in Names(started) { }
    forall k | 0 <= k < s ensures mutations[k] in started { assert started[k] == mutations[k]; }
  }

  lemma AppliedMeans(before: Store, mutations: seq<Mutation>, f: Faults)
    requires DistinctNames(mutations) && StillFits(mutations, before) && Completes(before, mutations, f)
    ensures mutations[..StartedCount(|mutations|, f)] == mutations
    ensures AppliedTo(RunSome(before, mutations, f.took), before, mutations)
  {
    var after := RunSome(before, mutations, f.took);
    RunSomeLookup(before, mutations, f.took);
    forall m | m in mutations
      ensures m.name in after && after[m.name].zone == m.zone && after[m.name].tag == m.tag
      ensures !m.create ==> m.name in before && after[m.name].rest == before[m.name].rest
    {
      var k :| 0 <= k < |mutations| && mutations[k] == m;
      assert MatchesDesired(Lookup(after, mutations[k].name), mutations[k]);
    }
    forall name | forall m :: m in mutations ==> m.name != name
      ensures (name in after <==> name in before) && (name in after ==> after[name] == before[name])
    {
      assert name !in Names(mutations) && Lookup(after, name) == Lookup(before, name);
    }
  }

  lemma Covered(mutations: seq<Mutation>, s: nat, count: nat, snapshot: Snapshot, before: Store)
    requires DistinctNames(mutations) && SnapshotOf(snapshot, mutations, before) && count <= s <= |mutations|
    ensures DistinctNames(mutations[..s]) && SnapshotCovers(snapshot, mutations[..s], before)
    ensures Fits(snapshot, mutations[..count]) && DistinctNames(mutations[..count])
  {
    forall m | m in mutations[..s]
      ensures m.name in snapshot && snapshot[m.name] == Lookup(before, m.name) && !Stale(m, before)
    {
      assert m in mutations;
      assert m.name in Names(mutations);
    }
    forall m | m in mutations[..count] ensures m in mutations[..s] {
      assert mutations[..count] <= mutations[..s];
    }
  }

  const TWO: seq<Mutation> := [Mutation(true, "lab2000", "lab", 2000), Mutation(true, "lab2001", "lab", 2001)]

  const INTERRUPTED: Faults := Faults(2, false, {"lab2000", "lab2001"}, 0, true, 2, true)

  lemma SecondUnmarked()
    ensures DistinctNames(TWO) && StillFits(TWO, map[]) && !Completes(map[], TWO, INTERRUPTED)
    ensures !UnmarkedQuiet(map[], TWO, INTERRUPTED)
  {
    assert TWO[0].name[6] != TWO[1].name[6];
    RunSomeLookup(map[], TWO, INTERRUPTED.took);
    assert TWO[..2] == TWO;
    assert TWO[1..2] == [TWO[1]];
    assert TWO[1] in TWO && TWO[1] in TWO[1..2];
  }

  /** The gap the exact condition describes, met by an attempt from an empty cluster: the SDN apply fails behind two
      creations, the first failure checkpoint throws, and the attempt reports a compensation while a VNet stays. */
  method MarkingInterrupted() returns (outcome: Outcome, left: Store)
    ensures outcome == Compensated && left != map[]
  {
    SecondUnmarked();
    var cluster := new Cluster(map[]);
    var attempt := new Attempt(cluster);
    outcome := attempt.ApplyProxmoxVnetActions(TWO, INTERRUPTED);
    left := cluster.vnets;
  }
}
