/** What every interleaving of the group transitions keeps. */
module GroupRuns {
  import opened Base
  import opened Decimal
  import opened Slots
  import opened Projection
  import opened ProjectionLaws
  import opened Groups

  ghost predicate Bare(g: Group) { Unallocated(RowOf(0, g)) }

  ghost predicate Claimed(g: Group) { Canonical(RowOf(0, g), APPROVED) }

  ghost predicate SameAllocation(a: Group, b: Group) {
    a.vlan == b.vlan && a.vnet == b.vnet && a.subnet == b.subnet
  }

  /** Planned groups hold nothing, errored ones nothing or a slot, all others a slot; slots and owners do not repeat. */
  ghost predicate Inv(db: Db) {
    && (forall id :: id in db.groups ==> 0 <= id < db.nextId && GroupOk(db.groups[id]))
    && VlansApart(db)
    && OwnersApart(db)
  }

  ghost predicate GroupOk(g: Group) {
    match g.state
    case Planned => Bare(g)
    case Error => Bare(g) || Claimed(g)
    case _ => Claimed(g)
  }

  predicate SameVlan(g: Group, h: Group) { g.vlan.Some? && g.vlan == h.vlan }

  ghost predicate VlansApart(db: Db) {
    forall a, b :: a in db.groups && b in db.groups && SameVlan(db.groups[a], db.groups[b]) ==> a == b
  }

  ghost predicate OwnersApart(db: Db) {
    forall a, b :: a in db.groups && b in db.groups && SameOwner(db.groups[a], db.groups[b]) ==> a == b
  }

  predicate SameOwner(a: Group, b: Group) { a.owner == b.owner && a.profile == b.profile }

  /** A teardown begins on a row that holds a VLAN: releasing a group without one is refused before anything is
      marked. */
  predicate Legal(db: Db, e: Event) {
    e.TeardownBegun? && e.id in db.groups ==> db.groups[e.id].vlan.Some?
  }

  ghost predicate LegalRun(db: Db, events: seq<Event>, hash: Hash)
    decreases |events|
  {
    events == [] || (Legal(db, events[0]) && LegalRun(Step(db, events[0], hash), events[1..], hash))
  }

  // ---- the rows a plan is built from --------------------------------------------------------------------

  lemma {:induction false} RowsListed(groups: map<int, Group>, n: nat)
    ensures forall r :: r in RowsBelow(groups, n) <==> 0 <= r.id < n && r.id in groups && r == RowOf(r.id, groups[r.id])
  {
    if n > 0 {
      RowsListed(groups, n - 1);
    }
  }

  lemma {:induction false} RowsAscend(groups: map<int, Group>, n: nat)
    ensures forall i, j :: 0 <= i < j < |RowsBelow(groups, n)| ==>
      RowsBelow(groups, n)[i].id < RowsBelow(groups, n)[j].id
  {
    if n > 0 {
      var before, rows := RowsBelow(groups, n - 1), RowsBelow(groups, n);
      RowsAscend(groups, n - 1);
      RowsListed(groups, n - 1);
      if n - 1 in groups {
        assert rows == before + [RowOf(n - 1, groups[n - 1])];
        forall i | 0 <= i < |before| ensures before[i].id < n - 1 {
          assert before[i] in before;
        }
      } else {
        assert rows == before;
      }
    }
  }

  lemma {:induction false} RowsCounted(groups: map<int, Group>, n: nat)
    ensures |RowsBelow(groups, n)| == |set id | id in groups && 0 <= id < n|
  {
    if n == 0 {
      assert (set id | id in groups && 0 <= id < n) == {};
    } else {
      RowsCounted(groups, n - 1);
      OneMoreCounted(groups, n);
    }
  }

  lemma OneMoreCounted(groups: map<int, Group>, n: nat)
    requires n > 0
    ensures var now, before := set id | id in groups && 0 <= id < n, set id | id in groups && 0 <= id < n - 1;
      |now| == |before| + if n - 1 in groups then 1 else 0
  {
    var now, before := set id | id in groups && 0 <= id < n, set id | id in groups && 0 <= id < n - 1;
    if n - 1 in groups {
      assert now == before + {n - 1};
    } else {
      assert now == before;
    }
  }

  lemma RowsMembers(groups: map<int, Group>, n: nat)
    ensures forall r :: r in RowsBelow(groups, n) <==> 0 <= r.id < n && r.id in groups && r == RowOf(r.id, groups[r.id])
    ensures KeysDistinct(RowKey, RowsBelow(groups, n))
    ensures |RowsBelow(groups, n)| == |set id | id in groups && 0 <= id < n|
  {
    RowsListed(groups, n);
    RowsAscend(groups, n);
    RowsCounted(groups, n);
  }

  lemma RowsValid(db: Db)
    requires forall id :: id in db.groups ==> 0 <= id < db.nextId && (Bare(db.groups[id]) || Claimed(db.groups[id]))
    requires VlansApart(db)
    ensures DistinctIds(Rows(db)) && ValidRows(Rows(db), APPROVED) && |Rows(db)| == |db.groups|
    ensures forall v :: v in Taken(Rows(db)) <==> exists id :: id in db.groups && db.groups[id].vlan == Some(v)
  {
    var rows := Rows(db);
    RowsMembers(db.groups, db.nextId);
    assert (set id | id in db.groups && 0 <= id < db.nextId) == db.groups.Keys;
    assert |db.groups| == |db.groups.Keys|;
    forall i, j | 0 <= i < j < |rows| && rows[i].vlan.Some? && rows[j].vlan.Some? ensures rows[i].vlan != rows[j].vlan {
      assert rows[i] in rows && rows[j] in rows;
      assert RowKey(rows[i]) != RowKey(rows[j]);
    }
    forall id | id in db.groups ensures RowOf(id, db.groups[id]) in rows { }
  }

  // ---- one step -------------------------------------------------------------------------------------------

  lemma ClaimedKeeps(db: Db, id: int, g: Group)
    requires Inv(db) && id in db.groups && Bare(db.groups[id]) && SameOwner(g, db.groups[id])
    requires Claimed(g) && g.state == Creating && g.vlan.value !in Taken(Rows(db))
    ensures Inv(WithGroup(db, id, g))
  {
    RowsValid(db);
    assert forall a :: a in db.groups ==> db.groups[a].vlan != g.vlan;
  }

  lemma PlanAfterClaim(db: Db, id: int, g: Group)
    requires Inv(db) && id in db.groups && Inv(WithGroup(db, id, g))
    ensures Plan(Rows(WithGroup(db, id, g)), APPROVED).Some? <==> |db.groups| <= 256
  {
    var tried := WithGroup(db, id, g);
    assert tried.groups.Keys == db.groups.Keys;
    RowsValid(tried);
    ExhaustedExactly(Rows(tried), APPROVED);
    assert |tried.groups| == |tried.groups.Keys| && |db.groups| == |db.groups.Keys|;
  }

  lemma ClaimKeeps(db: Db, id: int, hash: Hash)
    requires Inv(db) && id in db.groups && Bare(db.groups[id])
    ensures var (next, reply) := Claim(db, id, db.groups[id], hash);
      && Inv(next)
      && (reply.Ok? <==> |db.groups| <= 256)
      && (reply.Err? ==> reply.error == Exhausted && next == db)
      && (reply.Ok? ==>
            && next == WithGroup(db, id, reply.value) && Claimed(reply.value) && reply.value.state == Creating
            && reply.value.vlan == LowestFree(Taken(Rows(db)), APPROVED.first, APPROVED.last))
  {
    var v := LowestFree(Taken(Rows(db)), APPROVED.first, APPROVED.last);
    LowestFreeIsLowest(Taken(Rows(db)), APPROVED.first, APPROVED.last);
    if v.None? {
      PoolTaken(db);
    } else {
      var slot := SlotOf(v.value, APPROVED);
      var claimed := db.groups[id].(vlan := v, vnet := Some(slot.vnet), subnet := Some(slot.subnet),
                                    state := Creating, desired := None, applied := None, lastError := None);
      ClaimedKeeps(db, id, claimed);
      PlanAfterClaim(db, id, claimed);
      var plan := Plan(Rows(WithGroup(db, id, claimed)), APPROVED);
      if plan.Some? {
        ClaimedKeeps(db, id, claimed.(desired := Some(hash(plan.value))));
      }
    }
  }

  /** With every VLAN taken there are at least 256 allocated groups, and the asking one makes 257. */
  lemma PoolTaken(db: Db)
    requires Inv(db) && LowestFree(Taken(Rows(db)), APPROVED.first, APPROVED.last) == None
    requires exists id :: id in db.groups && Bare(db.groups[id])
    ensures |db.groups| > 256
  {
    RowsValid(db);
    var id :| id in db.groups && Bare(db.groups[id]);
    BareRow(db, id);
    FullTable(Rows(db), RowOf(id, db.groups[id]));
  }

  lemma BareRow(db: Db, id: int)
    requires Inv(db) && id in db.groups && Bare(db.groups[id])
    ensures RowOf(id, db.groups[id]) in Rows(db) && Unallocated(RowOf(id, db.groups[id]))
  {
    RowsListed(db.groups, db.nextId);
  }

  lemma FullTable(rows: seq<Row>, r: Row)
    requires DistinctIds(rows) && ValidRows(rows, APPROVED) && r in rows && Unallocated(r)
    requires LowestFree(Taken(rows), APPROVED.first, APPROVED.last) == None
    ensures |rows| > 256
  {
    var pins := Pins(rows, APPROVED);
    PinsLookup(rows, APPROVED);
    TakenInPool(rows, APPROVED);
    FullPool(Taken(rows), APPROVED);
    TakenCount(rows, pins, APPROVED);
    SomeUnpinned(rows, pins, r);
  }

  lemma {:induction false} SomeUnpinned(rows: seq<Row>, pins: map<int, Slot>, r: Row)
    requires r in rows && r.id !in pins
    ensures Unpinned(rows, pins) > 0
  {
    if rows[0] != r {
      SomeUnpinned(rows[1..], pins, r);
    }
  }

  /** The revision a claim records is that of the table it leaves; writing it moves no row of the plan. */
  lemma ClaimRevision(db: Db, id: int, hash: Hash)
    requires Inv(db) && id in db.groups
    ensures var (next, reply) := Claim(db, id, db.groups[id], hash);
      reply.Ok? ==>
        && Plan(Rows(next), APPROVED).Some? && reply.value.desired == Some(hash(Plan(Rows(next), APPROVED).value))
  {
    var (next, reply) := Claim(db, id, db.groups[id], hash);
    if reply.Ok? {
      SameRows(next.groups, next.groups[id := reply.value.(desired := None)], next.nextId);
      assert next.groups[id := reply.value.(desired := None)] == db.groups[id := reply.value.(desired := None)];
    }
  }

  lemma {:induction false} SameRows(a: map<int, Group>, b: map<int, Group>, n: nat)
    requires a.Keys == b.Keys && forall id :: id in a ==> RowOf(id, a[id]) == RowOf(id, b[id])
    ensures RowsBelow(a, n) == RowsBelow(b, n)
  {
    if n > 0 { SameRows(a, b, n - 1); }
  }

  /** On every table the invariant admits: allocation is refused for a missing group, and for an unallocated one
      exactly when more than 256 groups exist; the inconsistency errors never occur, not even for an errored group
      that never got a slot. */
  lemma AllocateExactly(db: Db, id: int, hash: Hash)
    requires Inv(db)
    ensures var (next, reply) := Allocate(db, id, hash);
      && Inv(next)
      && (reply.Ok? <==> id in db.groups && (Claimed(db.groups[id]) || |db.groups| <= 256))
      && (reply.Err? ==> reply.error == (if id !in db.groups then Missing else Exhausted) && next == db)
      && (reply.Ok? ==>
            && next == WithGroup(db, id, reply.value) && Claimed(reply.value)
            && reply.value.state !in {Planned, Error})
      && (reply.Ok? && Claimed(db.groups[id]) ==> SameAllocation(reply.value, db.groups[id]))
      && (reply.Ok? && Claimed(db.groups[id]) ==>
            reply.value == if db.groups[id].state == Error then db.groups[id].(state := Creating, lastError := None)
                           else db.groups[id])
      && (reply.Ok? && Bare(db.groups[id]) ==>
            && reply.value.vlan == LowestFree(Taken(Rows(db)), APPROVED.first, APPROVED.last)
            && reply.value.state == Creating && reply.value.applied.None? && reply.value.lastError.None?
            && SameOwner(reply.value, db.groups[id])
            && Plan(Rows(next), APPROVED).Some?
            && reply.value.desired == Some(hash(Plan(Rows(next), APPROVED).value)))
  {
    if id in db.groups {
      assert Canonical(RowOf(id, db.groups[id]), APPROVED) <==> Claimed(db.groups[id]);
      if Bare(db.groups[id]) {
        ClaimKeeps(db, id, hash);
        ClaimRevision(db, id, hash);
      }
    }
  }

  lemma ChangeKeeps(db: Db, id: int, g: Group)
    requires Inv(db) && id in db.groups && SameAllocation(g, db.groups[id]) && SameOwner(g, db.groups[id])
    ensures Inv(WithGroup(db, id, g)) <==> GroupOk(g)
  {
    assert id in WithGroup(db, id, g).groups && WithGroup(db, id, g).groups[id] == g;
  }

  lemma CreateKeeps(db: Db, owner: string, profile: int)
    requires Inv(db)
    ensures Inv(GetOrCreate(db, owner, profile))
  { }

  lemma RemoveKeeps(db: Db, id: int)
    requires Inv(db)
    ensures Inv(WithoutGroup(db, id))
  { }

  lemma SweepKeeps(db: Db)
    requires Inv(db)
    ensures Inv(RecoverStranded(db))
  {
    var next := RecoverStranded(db);
    forall id | id in next.groups ensures GroupOk(next.groups[id]) {
      assert next.groups[id] == Recovered(db, id);
    }
    forall a, b | a in next.groups && b in next.groups && SameVlan(next.groups[a], next.groups[b])
      ensures a == b
    {
      assert db.groups[a].vlan == next.groups[a].vlan && db.groups[b].vlan == next.groups[b].vlan;
    }
  }

  /** The one step that breaks the invariant: a teardown beginning on an errored group that never got a slot. */
  predicate Breaks(db: Db, e: Event) {
    e.TeardownBegun? && MayDelete(db, e.id) && db.groups[e.id].vlan.None?
  }

  /** Every guarded statement, under whatever caller, keeps the invariant, except exactly that one. */
  lemma StepKeepsExactly(db: Db, e: Event, hash: Hash)
    requires Inv(db)
    ensures Inv(Step(db, e, hash)) <==> !Breaks(db, e)
  {
    match e
    case Created(owner, profile) => CreateKeeps(db, owner, profile);
    case Allocated(id) => AllocateExactly(db, id, hash);
    case Swept => SweepKeeps(db);
    case Released(id) => RemoveKeeps(db, id);
    case PlannedDropped(id) => RemoveKeeps(db, id);
    case Failed(id, message) => FailureKeeps(db, id, message);
    case Promoted(id, revision) => PromotionKeeps(db, id, revision);
    case TeardownBegun(id) => TeardownKeeps(db, id);
    case TeardownFailed(id, message) => AnnotationKeeps(db, id, message);
    case InstanceReserved(_, _) =>
    case InstanceDeleted(_) =>
  }

  lemma FailureKeeps(db: Db, id: int, message: string)
    requires Inv(db)
    ensures Inv(MarkError(db, id, message))
  {
    if id in db.groups { ChangeKeeps(db, id, db.groups[id].(state := Error, lastError := Some(message))); }
  }

  lemma PromotionKeeps(db: Db, id: int, revision: string)
    requires Inv(db)
    ensures Inv(MarkActive(db, id, revision))
  {
    if id in db.groups {
      ChangeKeeps(db, id, db.groups[id].(state := Active, applied := Some(revision), lastError := None));
    }
  }

  lemma TeardownKeeps(db: Db, id: int)
    requires Inv(db)
    ensures Inv(MarkDeleting(db, id)) <==> !(MayDelete(db, id) && db.groups[id].vlan.None?)
  {
    if id in db.groups { ChangeKeeps(db, id, db.groups[id].(state := Deleting)); }
  }

  lemma AnnotationKeeps(db: Db, id: int, message: string)
    requires Inv(db)
    ensures Inv(MarkTeardownError(db, id, message))
  {
    if id in db.groups { ChangeKeeps(db, id, db.groups[id].(lastError := Some(message))); }
  }

  lemma StepKeeps(db: Db, e: Event, hash: Hash)
    requires Inv(db) && Legal(db, e)
    ensures Inv(Step(db, e, hash))
  {
    StepKeepsExactly(db, e, hash);
  }

  /** The lifecycle invariant holds after every run in which teardowns begin on rows that hold a VLAN. */
  lemma {:induction false} RunKeeps(db: Db, events: seq<Event>, hash: Hash)
    requires Inv(db) && LegalRun(db, events, hash)
    ensures Inv(After(db, events, hash))
    decreases |events|
  {
    if events != [] {
      StepKeeps(db, events[0], hash);
      RunKeeps(Step(db, events[0], hash), events[1..], hash);
    }
  }
}
