/** Releasing a group: gated on its table row, ordered over the layers that carry it, and resumable. */
module Teardown {
  import opened Base
  import opened Slots
  import opened Projection
  import opened Groups
  import opened GroupRuns
  import opened GroupHistories

  datatype Layer = GatewayPolicy | AccessPolicy | AccessTrunk

  datatype Reply = Contended | Broken | Finished(succeeded: bool)

  datatype Mark = MarkedDeleting | VnetDeleted | Reconciled(layer: Layer) | RowDeleted

  datatype Outcome = Freed(steps: seq<Mark>) | Refused | Stopped(message: string)

  const ALL_STEPS: seq<Mark> :=
    [MarkedDeleting, VnetDeleted, Reconciled(GatewayPolicy), Reconciled(AccessPolicy), Reconciled(AccessTrunk),
      RowDeleted]

  /** What the dependencies answer: `references` is empty when the listing could not be read, `deleted` says whether the
      VNet is gone when it is looked for again. `meanwhile` is what other requests do to the tables between the marking
      and the last step, `afterwards` what they do between a refused release and the annotation. */
  datatype Dependencies = Dependencies(
    active: bool, references: Option<bool>, deleted: bool, replies: Layer -> nat -> Reply, attempts: nat,
    meanwhile: seq<Event>, afterwards: seq<Event>, message: string, hash: Hash)

  // ---- one reconciliation --------------------------------------------------------------------------------

  /** Contention is retried; the first other reply decides, and it must come within the attempts. */
  ghost predicate Settles(replies: nat -> Reply, attempts: nat) {
    exists k: nat :: k < attempts && replies(k) == Finished(true) && forall j: nat :: j < k ==> replies(j) == Contended
  }

  method Reconcile(replies: nat -> Reply, attempts: nat) returns (ok: bool)
    ensures ok <==> Settles(replies, attempts)
  {
    for k := 0 to attempts
      invariant forall j: nat :: j < k ==> replies(j) == Contended
    {
      var reply := replies(k);
      if reply == Contended {
        continue;
      }
      if reply == Finished(true) {
        return true;
      }
      assert replies(k) != Contended && replies(k) != Finished(true);
      return false;
    }
    return false;
  }

  // ---- the sequence ------------------------------------------------------------------------------------------

  /** The row the caller read earlier; only whether it held an allocation matters, and its VNet name. */
  datatype Target = Target(id: int, vlan: Option<int>, vnet: Option<string>)

  /** Everything outside the tables goes well. */
  ghost predicate Cooperates(d: Dependencies) {
    d.references == Some(false) && d.deleted && forall layer: Layer :: Settles(d.replies(layer), d.attempts)
  }

  /** The tables when the last step comes, after the marking and whatever else went on. */
  ghost function AtRelease(before: Db, id: int, d: Dependencies): Db {
    After(MarkDeleting(before, id), d.meanwhile, d.hash)
  }

  /** The layers a list of marks has taken the group out of. */
  function Cleared(marks: seq<Mark>): set<Layer> {
    set m | m in marks && m.Reconciled? :: m.layer
  }

  const DISMANTLING: seq<Mark> :=
    [VnetDeleted, Reconciled(GatewayPolicy), Reconciled(AccessPolicy), Reconciled(AccessTrunk)]

  class Releaser {
    const db: Database
    var vnets: set<string>
    var carrying: set<Layer>
    /** What was really done outside the tables, in the order it was done. */
    var done: seq<Mark>

    constructor (db: Database, vnets: set<string>, carrying: set<Layer>)
      ensures this.db == db && this.vnets == vnets && this.carrying == carrying && done == []
    {
      this.db, this.vnets, this.carrying, done := db, vnets, carrying, [];
    }

    method DeleteVnet(vnet: string, d: Dependencies) returns (ok: bool)
      modifies this`vnets, this`done
      ensures ok == (d.references == Some(false) && d.deleted)
      ensures vnets == if ok then old(vnets) - {vnet} else old(vnets)
      ensures done == old(done) + if ok then [VnetDeleted] else []
    {
      ok := d.references == Some(false) && d.deleted;
      if ok {
        vnets, done := vnets - {vnet}, done + [VnetDeleted];
      }
    }

    method ReconcileLayer(layer: Layer, d: Dependencies) returns (ok: bool)
      modifies this`carrying, this`done
      ensures ok <==> Settles(d.replies(layer), d.attempts)
      ensures carrying == if ok then old(carrying) - {layer} else old(carrying)
      ensures done == old(done) + if ok then [Reconciled(layer)] else []
    {
      ok := Reconcile(d.replies(layer), d.attempts);
      if ok {
        carrying, done := carrying - {layer}, done + [Reconciled(layer)];
      }
    }

    /** Everything between marking and the row: the VNet, then the three layers, in that order. Wherever it stops, what
        was done is a prefix of the sequence, and the group is gone from exactly what was done. */
    method Dismantle(vnet: string, d: Dependencies) returns (ok: bool)
      requires done == []
      modifies this`vnets, this`carrying, this`done
      ensures ok <==> Cooperates(d)
      ensures done <= DISMANTLING && (ok <==> done == DISMANTLING)
      ensures vnets == if VnetDeleted in done then old(vnets) - {vnet} else old(vnets)
      ensures carrying == old(carrying) - Cleared(done)
    {
      ok := DeleteVnet(vnet, d);
      if !ok { return; }
      ok := ReconcileLayer(GatewayPolicy, d);
      if !ok { return; }
      ok := ReconcileLayer(AccessPolicy, d);
      if !ok { return; }
      ok := ReconcileLayer(AccessTrunk, d);
      if !ok { return; }
      forall layer: Layer ensures Settles(d.replies(layer), d.attempts) {
        match layer
        case GatewayPolicy =>
        case AccessPolicy =>
        case AccessTrunk =>
      }
    }

    /** Refusals change nothing. A release means that everything was done in order and that the row was still `Deleting`
        and free of instances at the end, whatever others did meanwhile. Any other end leaves the tables as the others
        left them, with the reason recorded if the row is still `Deleting`. */
    method ReleaseNetworkGroup(t: Target, d: Dependencies) returns (r: Outcome)
      requires done == []
      modifies this`vnets, this`carrying, this`done, db
      ensures r.Refused? <==>
        || !d.active || t.vlan.None? || t.vnet.None? || t.id !in old(db.groups) || old(db.groups)[t.id].state == Planned
        || InUse(old(db.Snapshot()), t.id)
      ensures r.Refused? ==>
        db.Snapshot() == old(db.Snapshot()) && vnets == old(vnets) && carrying == old(carrying) && done == []
      ensures r.Freed? <==>
        !r.Refused? && Cooperates(d) && MayRelease(AtRelease(old(db.Snapshot()), t.id, d), t.id)
      ensures r.Freed? ==>
        && r.steps == ALL_STEPS && done == DISMANTLING
        && db.Snapshot() == WithoutGroup(AtRelease(old(db.Snapshot()), t.id, d), t.id)
      ensures r.Stopped? ==>
        var at := AtRelease(old(db.Snapshot()), t.id, d);
        db.Snapshot() ==
          MarkTeardownError(if Cooperates(d) then After(at, d.afterwards, d.hash) else at, t.id, r.message)
      ensures !r.Refused? ==>
        && done <= DISMANTLING
        && vnets == (if VnetDeleted in done then old(vnets) - {t.vnet.value} else old(vnets))
        && carrying == old(carrying) - Cleared(done)
    {
      if !d.active || t.vlan.None? || t.vnet.None? {
        return Refused;
      }
      var marked := db.MarkNetworkGroupDeleting(t.id);
      if marked.None? {
        return Refused;
      }
      var ok := Dismantle(t.vnet.value, d);
      db.PerformAll(d.meanwhile, d.hash);
      if !ok {
        db.MarkNetworkGroupTeardownError(t.id, d.message);
        return Stopped(d.message);
      }
      var released := db.DeleteNetworkGroupRecord(t.id);
      if !released {
        db.PerformAll(d.afterwards, d.hash);
        db.MarkNetworkGroupTeardownError(t.id, d.message);
        return Stopped(d.message);
      }
      r := Freed([MarkedDeleting] + done + [RowDeleted]);
    }
  }

  /** A teardown that stopped anywhere, whatever else went on, can be run again: if its row may still be torn down,
      a run with cooperating dependencies and nobody in between completes. */
  method ReleaseAfterFailure(first: Releaser, second: Releaser, t: Target, d: Dependencies, e: Dependencies)
    returns (stopped: Outcome, r: Outcome, ghost between: Db)
    requires first.done == [] && second.done == [] && first != second && first.db == second.db
    requires e.active && t.vlan.Some? && t.vnet.Some? && Cooperates(e) && e.meanwhile == []
    modifies first, second, first.db
    ensures stopped.Stopped? ==> MayDelete(between, t.id) ==> r == Freed(ALL_STEPS)
    ensures stopped.Stopped? && !MayDelete(between, t.id) ==> r == Refused
    ensures r.Freed? ==> t.id !in second.db.groups && t.vnet.value !in second.vnets && second.carrying == {}
    ensures stopped.Stopped? && d.meanwhile == [] && d.afterwards == [] ==> MayDelete(between, t.id)
  {
    ghost var before := first.db.Snapshot();
    stopped := first.ReleaseNetworkGroup(t, d);
    between := first.db.Snapshot();
    if stopped.Stopped? && d.meanwhile == [] && d.afterwards == [] {
      StoppedRetryable(before, t.id, d, stopped.message);
    }
    r := second.ReleaseNetworkGroup(t, e);
    AllLayers(second.carrying, DISMANTLING);
  }

  /** On every table the invariant admits, a group that holds a slot and has no instances is released by a teardown
      whose dependencies cooperate and that nobody comes in between: its row, its VNet and its place in every layer are
      gone, and no other row moved. */
  method ReleaseAllocated(releaser: Releaser, id: int, d: Dependencies) returns (r: Outcome)
    requires Inv(releaser.db.Snapshot()) && id in releaser.db.groups && releaser.db.groups[id].vlan.Some?
    requires !InUse(releaser.db.Snapshot(), id)
    requires releaser.done == [] && d.active && Cooperates(d) && d.meanwhile == []
    modifies releaser, releaser.db
    ensures r == Freed(ALL_STEPS)
    ensures releaser.db.groups == old(releaser.db.groups) - {id}
    ensures releaser.carrying == {}
    ensures releaser.vnets == old(releaser.vnets) - {VnetName(old(releaser.db.groups)[id].vlan.value)}
  {
    var g := releaser.db.groups[id];
    assert Claimed(g);
    r := releaser.ReleaseNetworkGroup(Target(id, g.vlan, g.vnet), d);
    AllLayers(releaser.carrying, DISMANTLING);
  }

  lemma AllLayers(carrying: set<Layer>, done: seq<Mark>)
    requires done == DISMANTLING
    ensures carrying - Cleared(done) == {}
  {
    assert done[1] in done && done[2] in done && done[3] in done;
    forall layer | layer in carrying ensures layer in Cleared(done) {
      match layer
      case GatewayPolicy =>
      case AccessPolicy =>
      case AccessTrunk =>
    }
  }

  lemma StoppedRetryable(before: Db, id: int, d: Dependencies, message: string)
    requires MayDelete(before, id) && d.meanwhile == [] && d.afterwards == []
    ensures MayDelete(MarkTeardownError(AtRelease(before, id, d), id, message), id)
    ensures After(AtRelease(before, id, d), d.afterwards, d.hash) == AtRelease(before, id, d)
  {
    var after := MarkTeardownError(AtRelease(before, id, d), id, message);
    assert after.instances == before.instances;
    assert HasInstance(after, id) <==> HasInstance(before, id);
  }

  /** What becomes of the group whose teardown stopped, under any legal interleaving: as long as its row is there
      it keeps its slot; the reason is recorded exactly when it is still `Deleting`; and if an instance joined it,
      the row cannot be released and the sweep brings it back. */
  lemma StoppedKeepsAllocation(before: Db, id: int, others: seq<Event>, hash: Hash, message: string)
    requires Inv(before) && MayDelete(before, id) && Claimed(before.groups[id])
    requires LegalRun(MarkDeleting(before, id), others, hash)
    requires id in After(MarkDeleting(before, id), others, hash).groups
    ensures var at := After(MarkDeleting(before, id), others, hash);
      var after := MarkTeardownError(at, id, message);
      && Inv(after) && id in after.groups && SameAllocation(after.groups[id], before.groups[id])
      && after.groups[id].state == at.groups[id].state
      && (at.groups[id].state == Deleting ==> after.groups[id].lastError == Some(message))
      && (at.groups[id].state != Deleting ==> after == at)
      && (HasInstance(at, id) ==> !MayRelease(after, id))
      && (HasInstance(at, id) && at.groups[id].state == Deleting ==>
            RecoverStranded(after).groups[id].state == Creating)
  {
    var at := After(MarkDeleting(before, id), others, hash);
    AllocationThrough(before, id, others, hash);
    StepKeeps(at, TeardownFailed(id, message), hash);
    AnnotationOnly(at, id, message);
  }

  lemma AllocationThrough(before: Db, id: int, others: seq<Event>, hash: Hash)
    requires Inv(before) && MayDelete(before, id) && Claimed(before.groups[id])
    requires LegalRun(MarkDeleting(before, id), others, hash)
    requires id in After(MarkDeleting(before, id), others, hash).groups
    ensures var at := After(MarkDeleting(before, id), others, hash);
      Inv(at) && SameAllocation(at.groups[id], before.groups[id])
  {
    StepKeeps(before, TeardownBegun(id), hash);
    RunKeeps(MarkDeleting(before, id), others, hash);
    AllocationFixed(MarkDeleting(before, id), others, hash, id);
  }

  lemma AnnotationOnly(at: Db, id: int, message: string)
    requires id in at.groups
    ensures var after := MarkTeardownError(at, id, message);
      && id in after.groups && SameAllocation(after.groups[id], at.groups[id])
      && after.groups[id].state == at.groups[id].state
      && (at.groups[id].state == Deleting ==> after.groups[id].lastError == Some(message))
      && (at.groups[id].state != Deleting ==> after == at)
      && (HasInstance(at, id) ==> !MayRelease(after, id))
      && (HasInstance(at, id) && at.groups[id].state == Deleting ==>
            RecoverStranded(after).groups[id].state == Creating)
  {
    var after := MarkTeardownError(at, id, message);
    assert after.instances == at.instances;
    assert HasInstance(after, id) <==> HasInstance(at, id);
    if HasInstance(at, id) && at.groups[id].state == Deleting {
      assert Recovered(after, id).state == Creating;
    }
  }
}
