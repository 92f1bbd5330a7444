/** Whole histories of the group tables: what an allocation and a row live through. */
module GroupHistories {
  import opened Base
  import opened Decimal
  import opened Slots
  import opened Projection
  import opened Groups
  import opened GroupRuns

  /** The checks the schema declares on a group row. */
  predicate SchemaAllows(g: Group) {
    && (g.vlan.Some? <==> g.vnet.Some?) && (g.vlan.Some? <==> g.subnet.Some?)
    && (g.vlan.Some? ==> 2000 <= g.vlan.value <= 2255)
    && (g.state == Planned ==> g.vlan.None?)
    && (g.state in {Creating, Active, Deleting} ==> g.vlan.Some?)
  }

  ghost predicate ColumnsUnique(db: Db) {
    forall a, b :: a in db.groups && b in db.groups && a != b ==> DifferentSlots(db.groups[a], db.groups[b])
  }

  predicate DifferentSlots(g: Group, h: Group) {
    && (g.vlan.Some? && h.vlan.Some? ==> g.vlan != h.vlan)
    && (g.vnet.Some? && h.vnet.Some? ==> g.vnet != h.vnet)
    && (g.subnet.Some? && h.subnet.Some? ==> g.subnet != h.subnet)
  }

  /** The schema's checks and unique columns hold on their own; nothing here leans on the database enforcing them. */
  lemma SchemaImplied(db: Db)
    requires Inv(db)
    ensures (forall id :: id in db.groups ==> SchemaAllows(db.groups[id])) && ColumnsUnique(db)
  {
    forall a, b | a in db.groups && b in db.groups && a != b ensures DifferentSlots(db.groups[a], db.groups[b]) {
      var g, h := db.groups[a], db.groups[b];
      if Claimed(g) && Claimed(h) {
        assert g.vlan != h.vlan;
        SlotNamesInjective(g.vlan.value, h.vlan.value, APPROVED);
      }
    }
  }

  // ---- rows come and go ----------------------------------------------------------------------------------

  /** Where the row of `id` was removed: `k` events in, from `Deleting` or `Planned`, with no instance in sight. */
  ghost predicate RemovedAt(db: Db, events: seq<Event>, hash: Hash, id: int, k: nat) {
    && k < |events|
    && var at := After(db, events[..k], hash);
       && id in at.groups && !HasInstance(at, id)
       && ((events[k] == Released(id) && at.groups[id].state == Deleting)
           || (events[k] == PlannedDropped(id) && at.groups[id].state == Planned))
  }

  /** Over any run at all, legal or not, a row disappears only by release or by dropping a planned group, and never
      under an instance. */
  lemma {:induction false} RemovedOnlyEmpty(db: Db, events: seq<Event>, hash: Hash, id: int) returns (k: nat)
    requires id in db.groups && id !in After(db, events, hash).groups
    ensures RemovedAt(db, events, hash, id, k)
    decreases |events|
  {
    var next := Step(db, events[0], hash);
    if id !in next.groups {
      assert events[..0] == [];
      k := 0;
    } else {
      var rest := RemovedOnlyEmpty(next, events[1..], hash, id);
      k := rest + 1;
      assert events[..k][1..] == events[1..][..rest];
    }
  }

  lemma StepOthers(db: Db, e: Event, hash: Hash, id: int)
    requires Inv(db)
    ensures id < db.nextId && id !in db.groups ==> id !in Step(db, e, hash).groups
    ensures db.nextId <= Step(db, e, hash).nextId
    ensures id in db.groups && Claimed(db.groups[id]) && id in Step(db, e, hash).groups ==>
      SameAllocation(db.groups[id], Step(db, e, hash).groups[id]) && Claimed(Step(db, e, hash).groups[id])
  {
    if e.Allocated? {
      AllocateExactly(db, e.id, hash);
    }
  }

  lemma {:induction false} GoneForever(db: Db, events: seq<Event>, hash: Hash, id: int)
    requires Inv(db) && LegalRun(db, events, hash) && id < db.nextId && id !in db.groups
    ensures id !in After(db, events, hash).groups
    decreases |events|
  {
    if events != [] {
      StepKeeps(db, events[0], hash);
      StepOthers(db, events[0], hash, id);
      GoneForever(Step(db, events[0], hash), events[1..], hash, id);
    }
  }

  /** While its row lives, an allocation never changes. */
  lemma {:induction false} AllocationFixed(db: Db, events: seq<Event>, hash: Hash, id: int)
    requires Inv(db) && LegalRun(db, events, hash)
    requires id in db.groups && Claimed(db.groups[id]) && id in After(db, events, hash).groups
    ensures SameAllocation(db.groups[id], After(db, events, hash).groups[id])
    ensures Claimed(After(db, events, hash).groups[id])
    decreases |events|
  {
    if events != [] {
      var next := Step(db, events[0], hash);
      StepKeeps(db, events[0], hash);
      StepOthers(db, events[0], hash, id);
      if id !in next.groups {
        GoneForever(next, events[1..], hash, id);
      }
      AllocationFixed(next, events[1..], hash, id);
    }
  }

  /** An allocated group leaves the table only through a completed teardown: a release that saw no instance. */
  lemma {:induction false} ReleasedByTeardown(db: Db, events: seq<Event>, hash: Hash, id: int) returns (k: nat)
    requires Inv(db) && LegalRun(db, events, hash)
    requires id in db.groups && Claimed(db.groups[id]) && id !in After(db, events, hash).groups
    ensures k < |events| && events[k] == Released(id) && MayRelease(After(db, events[..k], hash), id)
    decreases |events|
  {
    var next := Step(db, events[0], hash);
    StepKeeps(db, events[0], hash);
    StepOthers(db, events[0], hash, id);
    if id !in next.groups {
      assert events[..0] == [];
      k := 0;
    } else {
      var rest := ReleasedByTeardown(next, events[1..], hash, id);
      k := rest + 1;
      assert events[..k][1..] == events[1..][..rest];
    }
  }

  /** A VLAN passes to another group only after the first group's teardown released it. */
  lemma SlotReusedAfterRelease(db: Db, events: seq<Event>, hash: Hash, id: int, other: int) returns (k: nat)
    requires Inv(db) && LegalRun(db, events, hash)
    requires id in db.groups && Claimed(db.groups[id]) && id != other
    requires other in After(db, events, hash).groups && After(db, events, hash).groups[other].vlan == db.groups[id].vlan
    ensures k < |events| && events[k] == Released(id) && MayRelease(After(db, events[..k], hash), id)
  {
    RunKeeps(db, events, hash);
    if id in After(db, events, hash).groups {
      AllocationFixed(db, events, hash, id);
    }
    k := ReleasedByTeardown(db, events, hash, id);
  }

  /** Which states a group can pass between, and what takes it there; everything else leaves the state alone. */
  predicate Passage(from: State, to: State, e: Event, id: int) {
    match e
    case Allocated(i) => i == id && from in {Planned, Error} && to == Creating
    case Failed(i, _) => i == id && from in {Planned, Creating, Error} && to == Error
    case Promoted(i, _) => i == id && from in {Creating, Deleting} && to == Active
    case TeardownBegun(i) => i == id && from in {Creating, Active, Error, Deleting} && to == Deleting
    case Swept => from == Deleting && to == Creating
    case _ => false
  }

  /** One step touches one group (the sweep apart), changes its state only along a passage, gives it a slot only by
      allocation, and reports of failure or teardown never reach a group with an instance. */
  lemma StepFrame(db: Db, e: Event, hash: Hash, id: int)
    requires id in db.groups && id < db.nextId && id in Step(db, e, hash).groups
    ensures var g, h := db.groups[id], Step(db, e, hash).groups[id];
      && (g.state != h.state ==> Passage(g.state, h.state, e, id))
      && (!SameAllocation(g, h) ==> e == Allocated(id) && Bare(g) && Claimed(h))
      && SameOwner(g, h)
      && (HasInstance(db, id) && (e.Failed? || e.TeardownBegun?) ==> h == g)
      && (h != g ==> e.Swept? || e.id == id)
  {
    StepPassage(db, e, hash, id);
    StepElsewhere(db, e, hash, id);
  }

  lemma StepPassage(db: Db, e: Event, hash: Hash, id: int)
    requires id in db.groups && id < db.nextId && id in Step(db, e, hash).groups
    ensures var g, h := db.groups[id], Step(db, e, hash).groups[id];
      && (g.state != h.state ==> Passage(g.state, h.state, e, id))
      && (!SameAllocation(g, h) ==> e == Allocated(id) && Bare(g) && Claimed(h))
  {
    if e == Allocated(id) {
      AllocationPassage(db, hash, id);
    }
  }

  lemma AllocationPassage(db: Db, hash: Hash, id: int)
    requires id in db.groups
    ensures id in Allocate(db, id, hash).0.groups
    ensures var g, h := db.groups[id], Allocate(db, id, hash).0.groups[id];
      && (g.state != h.state ==> g.state in {Planned, Error} && h.state == Creating)
      && (!SameAllocation(g, h) ==> Bare(g) && Claimed(h))
  {
    ClaimPassage(db, id, hash);
  }

  lemma ClaimPassage(db: Db, id: int, hash: Hash)
    requires id in db.groups
    ensures var next := Claim(db, id, db.groups[id], hash).0;
      next == db || (id in next.groups && next.groups[id].state == Creating && Claimed(next.groups[id]))
  {
    LowestFreeIsLowest(Taken(Rows(db)), APPROVED.first, APPROVED.last);
  }

  lemma StepElsewhere(db: Db, e: Event, hash: Hash, id: int)
    requires id in db.groups && id < db.nextId && id in Step(db, e, hash).groups
    ensures var g, h := db.groups[id], Step(db, e, hash).groups[id];
      && SameOwner(g, h)
      && (HasInstance(db, id) && (e.Failed? || e.TeardownBegun?) ==> h == g)
      && (h != g ==> e.Swept? || e.id == id)
  { }

  ghost predicate InUse(db: Db, id: int) { exists i :: i in db.instances && db.instances[i] == Some(id) }

  /** The other direction: whenever the state and the instances of a group admit a statement, it takes effect, and this
      is what the row then holds; whenever they do not, nothing changes. */
  lemma StepEffects(db: Db, e: Event, hash: Hash, id: int)
    requires id in db.groups
    ensures var g, before, after := db.groups[id], db.groups, Step(db, e, hash).groups;
      match e
      case Failed(i, message) =>
        i == id ==>
        after == if g.state != Active && g.state != Deleting && !InUse(db, id)
                 then before[id := g.(state := Error, lastError := Some(message))] else before
      case Promoted(i, revision) =>
        i == id ==>
        after == if g.state == Creating || g.state == Deleting
                 then before[id := g.(state := Active, applied := Some(revision), lastError := None)] else before
      case TeardownBegun(i) =>
        i == id ==>
        after == if g.state != Planned && !InUse(db, id) then before[id := g.(state := Deleting)] else before
      case TeardownFailed(i, message) =>
        i == id ==>
        after == if g.state == Deleting then before[id := g.(lastError := Some(message))] else before
      case Released(i) =>
        i == id ==> after == if g.state == Deleting && !InUse(db, id) then before - {id} else before
      case PlannedDropped(i) =>
        i == id ==> after == if g.state == Planned && !InUse(db, id) then before - {id} else before
      case Swept =>
        && id in after
        && after[id] == if g.state == Deleting && InUse(db, id) then g.(state := Creating) else g
      case InstanceReserved(_, _) => after == before
      case InstanceDeleted(_) => after == before
      case _ => true
  {
    assert InUse(db, id) <==> HasInstance(db, id);
  }

  /** A request for a group finds the one of its owner and profile, or makes a planned one that holds nothing. */
  lemma CreationEffects(db: Db, owner: string, profile: int, hash: Hash)
    ensures var next := Step(db, Created(owner, profile), hash);
      if exists id :: id in db.groups && db.groups[id].owner == owner && db.groups[id].profile == profile
      then next == db
      else
        && next.groups.Keys == db.groups.Keys + {db.nextId} && next.nextId == db.nextId + 1
        && next.instances == db.instances
        && var g := next.groups[db.nextId];
           g.owner == owner && g.profile == profile && g.state == Planned && Bare(g) && g.lastError.None?
    ensures forall id :: id in db.groups && id != db.nextId ==>
      id in Step(db, Created(owner, profile), hash).groups
      && Step(db, Created(owner, profile), hash).groups[id] == db.groups[id]
  { }

  // ---- the callers' part ---------------------------------------------------------------------------------------

  const EMPTY: Db := Db(map[], map[], 0)

  lemma EmptyHolds()
    ensures Inv(EMPTY)
  { }

  /** The exception is real: a failure reported for a group that was never allocated leaves it errored without a slot,
      which the invariant admits; a teardown that began on it all the same would carry it to `Deleting` and, by a
      promotion, to `Active` without a slot, where allocation is refused as inconsistent. */
  lemma UnallocatedTeardown(hash: Hash)
    ensures var start := [Created("s1", 1), Failed(0, "clone failed")];
      && LegalRun(EMPTY, start, hash)
      && var d2 := After(EMPTY, start, hash);
         && Breaks(d2, TeardownBegun(0))
         && var db := Step(Step(d2, TeardownBegun(0), hash), Promoted(0, "r1"), hash);
            && 0 in db.groups && db.groups[0].state == Active && Bare(db.groups[0])
            && Allocate(db, 0, hash) == (db, Err(StateUnallocated))
  {
    var start := [Created("s1", 1), Failed(0, "clone failed")];
    var g := Group("s1", 1, Planned, None, None, None, None, None, None);
    var d1 := Db(map[0 := g], map[], 1);
    assert Step(EMPTY, start[0], hash) == d1;
    var d2 := WithGroup(d1, 0, g.(state := Error, lastError := Some("clone failed")));
    assert Step(d1, start[1], hash) == d2;
    assert start[1..] == [start[1]] && start[1..][1..] == [];
    assert After(EMPTY, start, hash) == d2;
    assert Step(d2, TeardownBegun(0), hash) == WithGroup(d2, 0, d2.groups[0].(state := Deleting));
  }
}
