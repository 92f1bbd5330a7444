/** The selections the planners read from the group tables, and the plans built from them. */
module Views {
  import opened Base
  import opened Slots
  import opened Projection
  import opened ProjectionLaws
  import opened Groups
  import opened GroupRuns

  // ---- the infrastructure plan ----------------------------------------------------------------------

  datatype StatefulRow = StatefulRow(row: Row, state: State)

  datatype VnetTarget = VnetTarget(vnet: string, tag: int)

  datatype InfrastructurePlan = InfrastructurePlan(
    groups: seq<Projected>, vnets: seq<VnetTarget>, accessVlans: seq<int>, gatewayVlans: seq<int>)

  /** An errored group counts as long as it holds a VLAN. */
  predicate IsOperational(r: StatefulRow) {
    r.state in {Creating, Active} || (r.state == Error && r.row.vlan.Some?)
  }

  function OperationalRows(rows: seq<StatefulRow>): seq<Row> {
    if rows == [] then []
    else (if IsOperational(rows[0]) then [rows[0].row] else []) + OperationalRows(rows[1..])
  }

  function Vlans(groups: seq<Projected>): (r: seq<int>)
    ensures |r| == |groups| && forall k :: 0 <= k < |groups| ==> r[k] == groups[k].slot.vlan
  {
    seq(|groups|, k requires 0 <= k < |groups| => groups[k].slot.vlan)
  }

  function Vnets(groups: seq<Projected>): seq<VnetTarget> {
    seq(|groups|, k requires 0 <= k < |groups| => VnetTarget(groups[k].slot.vnet, groups[k].slot.vlan))
  }

  /** The migration VLAN first, then the allocated ones; one entry each. */
  function WithMigration(vlans: seq<int>): seq<int> {
    if MIGRATION_VLAN in vlans then vlans else [MIGRATION_VLAN] + vlans
  }

  lemma AccessList(vlans: seq<int>)
    requires Distinct(vlans)
    ensures var access := SortBy(Identity, WithMigration(vlans));
      SortedBy(Identity, access) && Distinct(access) && forall v :: v in access <==> v == MIGRATION_VLAN || v in vlans
  {
    var all := WithMigration(vlans);
    SortByKeeps(Identity, all);
    assert Distinct(all);
    DistinctMultiset(all);
    DistinctMultiset(SortBy(Identity, all));
  }

  lemma VnetsNamed(rows: seq<Row>)
    requires KeysDistinct(RowKey, rows) && Plan(rows, APPROVED).Some?
    ensures var groups := Plan(rows, APPROVED).value;
      && Distinct(Vlans(groups))
      && forall k :: 0 <= k < |groups| ==> groups[k].slot.vnet == VnetName(groups[k].slot.vlan)
  {
    PlanSlots(rows, APPROVED);
    var sorted, groups := SortBy(RowKey, rows), Plan(rows, APPROVED).value;
    forall k | 0 <= k < |groups| ensures groups[k].slot.vnet == VnetName(groups[k].slot.vlan) {
      assert PlannedAs(groups[k], sorted[k], Taken(rows), APPROVED);
    }
  }

  /** Refused when an operational group has no allocation, or when the operational rows do not project. */
  method BuildInfrastructurePlan(rows: seq<StatefulRow>) returns (r: Option<InfrastructurePlan>)
    requires KeysDistinct(RowKey, OperationalRows(rows))
    ensures r.Some? <==>
      (forall k :: 0 <= k < |OperationalRows(rows)| ==> OperationalRows(rows)[k].vlan.Some?)
        && Plan(OperationalRows(rows), APPROVED).Some?
    ensures r.Some? ==> Some(r.value.groups) == Plan(OperationalRows(rows), APPROVED)
    ensures r.Some? ==> |r.value.vnets| == |r.value.groups| && r.value.gatewayVlans == Vlans(r.value.groups)
    ensures r.Some? ==> forall k :: 0 <= k < |r.value.groups| ==>
      var target := r.value.vnets[k];
      target.tag == r.value.groups[k].slot.vlan && target.vnet == VnetName(target.tag)
    ensures r.Some? ==> SortedBy(Identity, r.value.accessVlans) && Distinct(r.value.accessVlans)
    ensures r.Some? ==> forall v :: v in r.value.accessVlans <==> v == 2000 || v in r.value.gatewayVlans
  {
    var operational := OperationalRows(rows);
    for k := 0 to |operational|
      invariant forall j :: 0 <= j < k ==> operational[j].vlan.Some?
    {
      if operational[k].vlan.None? {
        return None;
      }
    }
    var plan := BuildNetworkPlan(operational, APPROVED);
    if plan.None? {
      return None;
    }
    var vlans := Vlans(plan.value);
    VnetsNamed(operational);
    AccessList(vlans);
    r := Some(InfrastructurePlan(plan.value, Vnets(plan.value), SortBy(Identity, WithMigration(vlans)), vlans));
  }

  // ---- the selections, as the queries write them ------------------------------------------------------------

  function InfrastructureGroups(db: Db): set<int> {
    set id | id in db.groups && IsOperational(StatefulRow(RowOf(id, db.groups[id]), db.groups[id].state))
  }

  function GatewayGroups(db: Db): set<int> {
    set id | id in db.groups &&
      (db.groups[id].state in {Creating, Active} || (db.groups[id].state == Error && db.groups[id].vlan.Some?))
  }

  function FirewallGroups(db: Db): set<int> {
    set id | id in db.groups && db.groups[id].vlan.Some? && db.groups[id].state in {Creating, Active, Error}
  }

  function PeeringGroups(db: Db): set<int> {
    set id | id in db.groups && db.groups[id].vlan.Some? &&
      (db.groups[id].state in {Creating, Active} || db.groups[id].state == Error)
  }

  function PeerGroups(db: Db): set<int> {
    set id | id in db.groups && db.groups[id].subnet.Some? && db.groups[id].state in {Creating, Active, Error}
  }

  /** Holding a slot, and neither planned nor on the way out. */
  ghost predicate Serves(g: Group) {
    g.state in {Creating, Active, Error} && Claimed(g)
  }

  /** On every reachable table the five selections are one set: the groups that serve. What sets them apart on
      paper, which of a row's columns each asks for, matters for an errored group without a slot, and leaves it out
      of all five. */
  lemma ViewsCoincide(db: Db)
    requires Inv(db)
    ensures InfrastructureGroups(db) == GatewayGroups(db) == FirewallGroups(db) == PeeringGroups(db) == PeerGroups(db)
    ensures forall id :: id in GatewayGroups(db) <==> id in db.groups && Serves(db.groups[id])
    ensures forall id :: id in GatewayGroups(db) ==> Claimed(db.groups[id])
  {
    forall id | id in db.groups
      ensures id in InfrastructureGroups(db) <==> Serves(db.groups[id])
      ensures id in GatewayGroups(db) <==> Serves(db.groups[id])
      ensures id in FirewallGroups(db) <==> Serves(db.groups[id])
      ensures id in PeeringGroups(db) <==> Serves(db.groups[id])
      ensures id in PeerGroups(db) <==> Serves(db.groups[id])
    {
      assert GroupOk(db.groups[id]);
    }
  }

  function StatefulBelow(groups: map<int, Group>, n: nat): seq<StatefulRow> {
    if n == 0 then []
    else StatefulBelow(groups, n - 1) +
         if n - 1 in groups then [StatefulRow(RowOf(n - 1, groups[n - 1]), groups[n - 1].state)] else []
  }

  lemma {:induction false} OperationalSnoc(rows: seq<StatefulRow>, r: StatefulRow)
    ensures OperationalRows(rows + [r]) == OperationalRows(rows) + if IsOperational(r) then [r.row] else []
  {
    if rows == [] {
      assert [r][1..] == [];
    } else {
      var first := if IsOperational(rows[0]) then [rows[0].row] else [];
      assert (rows + [r])[0] == rows[0] && (rows + [r])[1..] == rows[1..] + [r];
      OperationalSnoc(rows[1..], r);
      assert OperationalRows(rows + [r]) == first + OperationalRows(rows[1..] + [r]);
    }
  }

  function OnlyGroups(db: Db, ids: set<int>): Db {
    db.(groups := map id | id in db.groups && id in ids :: db.groups[id])
  }

  /** Filtering the listed rows lists the filtered table. */
  lemma {:induction false} OperationalListed(db: Db, n: nat)
    ensures OperationalRows(StatefulBelow(db.groups, n)) ==
      RowsBelow(OnlyGroups(db, InfrastructureGroups(db)).groups, n)
  {
    if n > 0 {
      OperationalListed(db, n - 1);
      if n - 1 in db.groups {
        OperationalSnoc(StatefulBelow(db.groups, n - 1),
          StatefulRow(RowOf(n - 1, db.groups[n - 1]), db.groups[n - 1].state));
      } else {
        assert StatefulBelow(db.groups, n) == StatefulBelow(db.groups, n - 1);
      }
    }
  }

  lemma OnlyKeeps(db: Db, ids: set<int>)
    requires Inv(db)
    ensures Inv(OnlyGroups(db, ids))
  { }

  lemma OperationalMembers(db: Db)
    requires Inv(db)
    ensures var rows := OperationalRows(StatefulBelow(db.groups, db.nextId));
      && KeysDistinct(RowKey, rows) && ValidRows(rows, APPROVED)
      && forall r :: r in rows <==> r.id in InfrastructureGroups(db) && r == RowOf(r.id, db.groups[r.id])
  {
    var only := OnlyGroups(db, InfrastructureGroups(db));
    OperationalListed(db, db.nextId);
    OnlyKeeps(db, InfrastructureGroups(db));
    RowsValid(only);
    RowsMembers(only.groups, only.nextId);
  }

  /** No reachable table makes the infrastructure plan fail. */
  lemma InfrastructureBuilds(db: Db)
    requires Inv(db)
    ensures var rows := OperationalRows(StatefulBelow(db.groups, db.nextId));
      && KeysDistinct(RowKey, rows)
      && (forall r :: r in rows <==> r.id in GatewayGroups(db) && r == RowOf(r.id, db.groups[r.id]))
      && (forall r :: r in rows ==> r.vlan.Some?)
      && Plan(rows, APPROVED).Some?
  {
    var rows := OperationalRows(StatefulBelow(db.groups, db.nextId));
    OperationalMembers(db);
    ViewsCoincide(db);
    forall r | r in rows ensures Canonical(r, APPROVED) {
      assert Claimed(db.groups[r.id]);
    }
    AllAllocatedFit(rows);
  }

  /** Allocated rows always fit: their VLANs are distinct members of the pool. */
  lemma AllAllocatedFit(rows: seq<Row>)
    requires DistinctIds(rows) && ValidRows(rows, APPROVED) && forall r :: r in rows ==> Canonical(r, APPROVED)
    ensures Plan(rows, APPROVED).Some?
  {
    var sorted := SortBy(RowKey, rows);
    SortedRows(rows, APPROVED);
    PinsLookup(sorted, APPROVED);
    TakenCount(sorted, Pins(sorted, APPROVED), APPROVED);
    NonePinnedLeft(sorted, Pins(sorted, APPROVED));
    TakenInPool(rows, APPROVED);
    FullPool(Taken(rows), APPROVED);
    ExhaustedExactly(rows, APPROVED);
  }

  lemma {:induction false} NonePinnedLeft(rows: seq<Row>, pins: map<int, Slot>)
    requires forall r :: r in rows ==> r.id in pins
    ensures Unpinned(rows, pins) == 0
  {
    if rows != [] {
      NonePinnedLeft(rows[1..], pins);
    }
  }

  // ---- firewall targets -----------------------------------------------------------------------------------------

  ghost predicate IsFirewallTarget(db: Db, instance: int) {
    instance in db.instances && db.instances[instance].Some? && db.instances[instance].value in FirewallGroups(db)
  }

  ghost predicate OnAllocatedGroup(db: Db, instance: int) {
    && instance in db.instances && db.instances[instance].Some?
    && db.instances[instance].value in db.groups && db.groups[db.instances[instance].value].vlan.Some?
  }

  /** Before the sweep exactly the instances caught in a `Deleting` group are missed; after it none is. */
  lemma SweepCoversEveryInstance(db: Db, instance: int)
    requires Inv(db) && OnAllocatedGroup(db, instance)
    ensures IsFirewallTarget(db, instance) <==> db.groups[db.instances[instance].value].state != Deleting
    ensures IsFirewallTarget(RecoverStranded(db), instance)
  {
    var id := db.instances[instance].value;
    assert HasInstance(db, id);
    assert db.groups[id].state != Planned;
    assert RecoverStranded(db).groups[id] == Recovered(db, id);
  }
}
