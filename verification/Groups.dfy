/** The network group state machine: one guarded transition per statement, over the group and instance tables. */
module Groups {
  import opened Base
  import opened Slots
  import opened Projection

  datatype State = Planned | Creating | Active | Deleting | Error

  datatype Group = Group(
    owner: string, profile: int, state: State,
    vlan: Option<int>, vnet: Option<string>, subnet: Option<Cidr>,
    desired: Option<string>, applied: Option<string>, lastError: Option<string>)

  /** `instances` maps an instance to the group its row names; ids are handed out once and never reused. */
  datatype Db = Db(groups: map<int, Group>, instances: map<int, Option<int>>, nextId: nat)

  /** A revision is some function of the plan. */
  type Hash = seq<Projected> -> string

  function RowOf(id: int, g: Group): Row { Row(id, g.vlan, g.vnet, g.subnet) }

  /** All group rows below `n`, in id order. */
  function RowsBelow(groups: map<int, Group>, n: nat): seq<Row> {
    if n == 0 then []
    else RowsBelow(groups, n - 1) + if n - 1 in groups then [RowOf(n - 1, groups[n - 1])] else []
  }

  function Rows(db: Db): seq<Row> { RowsBelow(db.groups, db.nextId) }

  predicate HasInstance(db: Db, id: int) {
    exists i :: i in db.instances && db.instances[i] == Some(id)
  }

  predicate InState(db: Db, id: int, states: set<State>) {
    id in db.groups && db.groups[id].state in states
  }

  function WithGroup(db: Db, id: int, g: Group): Db { db.(groups := db.groups[id := g]) }

  function WithoutGroup(db: Db, id: int): Db { db.(groups := db.groups - {id}) }

  // ---- allocation ----------------------------------------------------------------------------------

  datatype Refusal = Missing | Inconsistent | PlannedAllocated | StateUnallocated | Exhausted

  ghost function Allocate(db: Db, id: int, hash: Hash): (Db, Result<Group, Refusal>) {
    if id !in db.groups then (db, Err(Missing))
    else
      var g := db.groups[id];
      match GetPersistedSlot(RowOf(id, g), APPROVED)
      case Err(_) => (db, Err(Inconsistent))
      case Ok(Some(_)) =>
        if g.state == Planned then (db, Err(PlannedAllocated))
        else if g.state == Error then
          var resumed := g.(state := Creating, lastError := None);
          (WithGroup(db, id, resumed), Ok(resumed))
        else (db, Ok(g))
      case Ok(None) =>
        if g.state != Planned && g.state != Error then (db, Err(StateUnallocated))
        else Claim(db, id, g, hash)
  }

  /** Takes the lowest free VLAN; when the plan over all rows then fails, the transaction rolls back. */
  ghost function Claim(db: Db, id: int, g: Group, hash: Hash): (Db, Result<Group, Refusal>) {
    match LowestFree(Taken(Rows(db)), APPROVED.first, APPROVED.last)
    case None => (db, Err(Exhausted))
    case Some(v) =>
      LowestFreeIsLowest(Taken(Rows(db)), APPROVED.first, APPROVED.last);
      var slot := SlotOf(v, APPROVED);
      var claimed := g.(vlan := Some(v), vnet := Some(slot.vnet), subnet := Some(slot.subnet),
                        state := Creating, desired := None, applied := None, lastError := None);
      var plan := Plan(Rows(WithGroup(db, id, claimed)), APPROVED);
      if plan.None? then (db, Err(Exhausted))
      else
        var holder := claimed.(desired := Some(hash(plan.value)));
        (WithGroup(db, id, holder), Ok(holder))
  }

  // ---- every other statement that writes either table ----------------------------------------------------

  function GetOrCreate(db: Db, owner: string, profile: int): Db {
    if exists id :: id in db.groups && db.groups[id].owner == owner && db.groups[id].profile == profile then db
    else db.(groups := db.groups[db.nextId := Group(owner, profile, Planned, None, None, None, None, None, None)],
             nextId := db.nextId + 1)
  }

  function MarkError(db: Db, id: int, message: string): Db {
    if InState(db, id, {Planned, Creating, Error}) && !HasInstance(db, id)
    then WithGroup(db, id, db.groups[id].(state := Error, lastError := Some(message)))
    else db
  }

  /** `Deleting` is accepted too, so that a VM caught by a teardown brings its group back. */
  function MarkActive(db: Db, id: int, revision: string): Db {
    if InState(db, id, {Creating, Deleting})
    then WithGroup(db, id, db.groups[id].(state := Active, applied := Some(revision), lastError := None))
    else db
  }

  predicate MayDelete(db: Db, id: int) {
    InState(db, id, {Creating, Active, Error, Deleting}) && !HasInstance(db, id)
  }

  function MarkDeleting(db: Db, id: int): Db {
    if MayDelete(db, id) then WithGroup(db, id, db.groups[id].(state := Deleting)) else db
  }

  function MarkTeardownError(db: Db, id: int, message: string): Db {
    if InState(db, id, {Deleting}) then WithGroup(db, id, db.groups[id].(lastError := Some(message))) else db
  }

  predicate MayRelease(db: Db, id: int) { InState(db, id, {Deleting}) && !HasInstance(db, id) }

  function DeleteRecord(db: Db, id: int): Db {
    if MayRelease(db, id) then WithoutGroup(db, id) else db
  }

  function DeleteUnusedPlanned(db: Db, id: int): Db {
    if InState(db, id, {Planned}) && !HasInstance(db, id) then WithoutGroup(db, id) else db
  }

  function Recovered(db: Db, id: int): Group
    requires id in db.groups
  {
    if db.groups[id].state == Deleting && HasInstance(db, id) then db.groups[id].(state := Creating) else db.groups[id]
  }

  function RecoverStranded(db: Db): Db {
    db.(groups := map id | id in db.groups :: Recovered(db, id))
  }

  datatype Event =
    | Created(owner: string, profile: int) | Allocated(id: int) | Failed(id: int, message: string)
    | Promoted(id: int, revision: string) | TeardownBegun(id: int) | TeardownFailed(id: int, message: string)
    | Released(id: int) | PlannedDropped(id: int) | Swept
    | InstanceReserved(instance: int, group: Option<int>) | InstanceDeleted(instance: int)

  ghost function Step(db: Db, e: Event, hash: Hash): Db {
    match e
    case Created(owner, profile) => GetOrCreate(db, owner, profile)
    case Allocated(id) => Allocate(db, id, hash).0
    case Failed(id, message) => MarkError(db, id, message)
    case Promoted(id, revision) => MarkActive(db, id, revision)
    case TeardownBegun(id) => MarkDeleting(db, id)
    case TeardownFailed(id, message) => MarkTeardownError(db, id, message)
    case Released(id) => DeleteRecord(db, id)
    case PlannedDropped(id) => DeleteUnusedPlanned(db, id)
    case Swept => RecoverStranded(db)
    case InstanceReserved(i, group) => db.(instances := db.instances[i := group])
    case InstanceDeleted(i) => db.(instances := db.instances - {i})
  }

  ghost function After(db: Db, events: seq<Event>, hash: Hash): Db
    decreases |events|
  {
    if events == [] then db else After(Step(db, events[0], hash), events[1..], hash)
  }

  lemma {:induction false} AfterSnoc(db: Db, events: seq<Event>, k: nat, hash: Hash)
    requires k < |events|
    ensures After(db, events[..k + 1], hash) == Step(After(db, events[..k], hash), events[k], hash)
    decreases k
  {
    if k == 0 {
      assert events[..1][1..] == [];
    } else {
      assert events[..k + 1][1..] == events[1..][..k] && events[..k][1..] == events[1..][..k - 1];
      AfterSnoc(Step(db, events[0], hash), events[1..], k - 1, hash);
    }
  }

  // ---- the tables as they are updated in place --------------------------------------------------------------

  class Database {
    var groups: map<int, Group>
    var instances: map<int, Option<int>>
    var nextId: nat

    function Snapshot(): Db reads this { Db(groups, instances, nextId) }

    constructor ()
      ensures Snapshot() == Db(map[], map[], 0)
    {
      groups, instances, nextId := map[], map[], 0;
    }

    method AllocateNetworkGroup(id: int, hash: Hash) returns (r: Result<Group, Refusal>)
      modifies this`groups
      ensures (Snapshot(), r) == Allocate(old(Snapshot()), id, hash)
    {
      if id !in groups {
        return Err(Missing);
      }
      var group := groups[id];
      var persisted := GetPersistedSlot(RowOf(id, group), APPROVED);
      if persisted.Err? {
        return Err(Inconsistent);
      }
      if persisted.value.Some? {
        if group.state == Planned {
          return Err(PlannedAllocated);
        }
        if group.state == Error {
          groups := groups[id := group.(state := Creating, lastError := None)];
        }
        return Ok(groups[id]);
      }
      if group.state != Planned && group.state != Error {
        return Err(StateUnallocated);
      }
      r := ClaimSlot(id, group, hash);
    }

    method ClaimSlot(id: int, group: Group, hash: Hash) returns (r: Result<Group, Refusal>)
      modifies this`groups
      ensures (Snapshot(), r) == Claim(old(Snapshot()), id, group, hash)
    {
      var before := groups;
      var vlan := FindLowestAvailableVlan(Taken(Rows(Snapshot())), APPROVED.first, APPROVED.last);
      if vlan.None? {
        return Err(Exhausted);
      }
      LowestFreeIsLowest(Taken(Rows(Snapshot())), APPROVED.first, APPROVED.last);
      var slot := SlotOf(vlan.value, APPROVED);
      groups := groups[id := group.(vlan := vlan, vnet := Some(slot.vnet), subnet := Some(slot.subnet),
                                    state := Creating, desired := None, applied := None, lastError := None)];
      var plan := BuildNetworkPlan(Rows(Snapshot()), APPROVED);
      if plan.None? {
        groups := before;
        return Err(Exhausted);
      }
      var holder := groups[id].(desired := Some(hash(plan.value)));
      groups := groups[id := holder];
      assert groups == before[id := holder];
      return Ok(holder);
    }

    method GetOrCreatePlannedGroup(owner: string, profile: int)
      modifies this`groups, this`nextId
      ensures Snapshot() == GetOrCreate(old(Snapshot()), owner, profile)
    {
      if !exists id :: id in groups && groups[id].owner == owner && groups[id].profile == profile {
        groups := groups[nextId := Group(owner, profile, Planned, None, None, None, None, None, None)];
        nextId := nextId + 1;
      }
    }

    method MarkNetworkGroupError(id: int, message: string)
      modifies this`groups
      ensures Snapshot() == MarkError(old(Snapshot()), id, message)
    {
      if InState(Snapshot(), id, {Planned, Creating, Error}) && !HasInstance(Snapshot(), id) {
        groups := groups[id := groups[id].(state := Error, lastError := Some(message))];
      }
    }

    method MarkNetworkGroupActive(id: int, revision: string) returns (r: Option<Group>)
      modifies this`groups
      ensures Snapshot() == MarkActive(old(Snapshot()), id, revision)
      ensures r.Some? <==> id in old(groups) && (old(groups)[id].state == Creating || old(groups)[id].state == Deleting)
      ensures r.Some? ==> r.value.state == Active && r.value.applied == Some(revision) && r.value.lastError.None?
      ensures r.Some? ==> groups == old(groups)[id := r.value]
    {
      if !InState(Snapshot(), id, {Creating, Deleting}) {
        return None;
      }
      groups := groups[id := groups[id].(state := Active, applied := Some(revision), lastError := None)];
      return Some(groups[id]);
    }

    method MarkNetworkGroupDeleting(id: int) returns (r: Option<Group>)
      modifies this`groups
      ensures Snapshot() == MarkDeleting(old(Snapshot()), id)
      ensures r.Some? <==>
        id in old(groups) && old(groups)[id].state != Planned
        && !(exists i :: i in old(instances) && old(instances)[i] == Some(id))
      ensures groups == if r.Some? then old(groups)[id := old(groups)[id].(state := Deleting)] else old(groups)
      ensures r.Some? ==> r.value == groups[id]
    {
      if !MayDelete(Snapshot(), id) {
        return None;
      }
      groups := groups[id := groups[id].(state := Deleting)];
      return Some(groups[id]);
    }

    method MarkNetworkGroupTeardownError(id: int, message: string)
      modifies this`groups
      ensures Snapshot() == MarkTeardownError(old(Snapshot()), id, message)
    {
      if InState(Snapshot(), id, {Deleting}) {
        groups := groups[id := groups[id].(lastError := Some(message))];
      }
    }

    method DeleteNetworkGroupRecord(id: int) returns (released: bool)
      modifies this`groups
      ensures Snapshot() == DeleteRecord(old(Snapshot()), id)
      ensures released <==>
        id in old(groups) && old(groups)[id].state == Deleting
        && !(exists i :: i in old(instances) && old(instances)[i] == Some(id))
      ensures groups == if released then old(groups) - {id} else old(groups)
    {
      released := MayRelease(Snapshot(), id);
      if released {
        groups := groups - {id};
      }
    }

    method DeleteUnusedPlannedGroup(id: int)
      modifies this`groups
      ensures Snapshot() == DeleteUnusedPlanned(old(Snapshot()), id)
    {
      if InState(Snapshot(), id, {Planned}) && !HasInstance(Snapshot(), id) {
        groups := groups - {id};
      }
    }

    method RecoverStrandedGroups()
      modifies this`groups
      ensures Snapshot() == RecoverStranded(old(Snapshot()))
    {
      groups := map id | id in groups :: Recovered(Snapshot(), id);
    }

    method PerformOne(e: Event, hash: Hash)
      modifies this
      ensures Snapshot() == Step(old(Snapshot()), e, hash)
    {
      match e
      case Created(owner, profile) => GetOrCreatePlannedGroup(owner, profile);
      case Allocated(id) => var _ := AllocateNetworkGroup(id, hash);
      case Failed(id, message) => MarkNetworkGroupError(id, message);
      case Promoted(id, revision) => var _ := MarkNetworkGroupActive(id, revision);
      case TeardownBegun(id) => var _ := MarkNetworkGroupDeleting(id);
      case TeardownFailed(id, message) => MarkNetworkGroupTeardownError(id, message);
      case Released(id) => var _ := DeleteNetworkGroupRecord(id);
      case PlannedDropped(id) => DeleteUnusedPlannedGroup(id);
      case Swept => RecoverStrandedGroups();
      case InstanceReserved(i, group) => instances := instances[i := group];
      case InstanceDeleted(i) => instances := instances - {i};
    }

    /** What other requests do to the tables in between, one statement at a time. */
    method PerformAll(events: seq<Event>, hash: Hash)
      modifies this
      ensures Snapshot() == After(old(Snapshot()), events, hash)
    {
      for k := 0 to |events|
        invariant Snapshot() == After(old(Snapshot()), events[..k], hash)
      {
        PerformOne(events[k], hash);
        AfterSnoc(old(Snapshot()), events, k, hash);
      }
      assert events[..|events|] == events;
    }
  }
}
