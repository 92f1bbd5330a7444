/** The network plan: every group on a slot, persisted where it has one and projected where it does not. */
module Projection {
  import opened Base
  import opened Decimal
  import opened Slots

  /** The columns of a group row that allocation is about; each may be NULL on its own. */
  datatype Row = Row(id: int, vlan: Option<int>, vnet: Option<string>, subnet: Option<Cidr>)

  datatype Projected = Projected(id: int, slot: Slot)

  function RowKey(r: Row): int { r.id }

  predicate Unallocated(r: Row) { r.vlan.None? && r.vnet.None? && r.subnet.None? }

  predicate Canonical(r: Row, c: Config) {
    && r.vlan.Some? && r.vnet.Some? && r.subnet.Some?
    && var slot := GetNetworkSlot(r.vlan.value, c);
       slot.Some? && slot.value.vnet == r.vnet.value && slot.value.subnet == r.subnet.value
  }

  /** All or nothing, and exactly the slot of its VLAN; anything in between is an error. */
  function GetPersistedSlot(r: Row, c: Config): (slot: Result<Option<Slot>, ()>)
    ensures slot == Ok(None) <==> Unallocated(r)
    ensures slot.Ok? && slot.value.Some? <==> Canonical(r, c)
    ensures slot.Ok? && slot.value.Some? ==> InPool(r.vlan.value, c) && slot.value.value.vlan == r.vlan.value
  {
    var populated :=
      (if r.vlan.Some? then 1 else 0) + (if r.vnet.Some? then 1 else 0) + (if r.subnet.Some? then 1 else 0);
    if populated == 0 then Ok(None)
    else if populated != 3 then Err(())
    else
      match GetNetworkSlot(r.vlan.value, c)
      case None => Err(())
      case Some(slot) => if r.vnet.value != slot.vnet || r.subnet.value != slot.subnet then Err(()) else Ok(Some(slot))
  }

  // ---- the lowest free VLAN -----------------------------------------------------------------------

  function LowestFree(occupied: set<int>, first: int, last: int): (v: Option<int>)
    decreases last - first
  {
    if first > last then None
    else if first !in occupied then Some(first)
    else if first == last then None
    else LowestFree(occupied, first + 1, last)
  }

  lemma {:induction false} LowestFreeIsLowest(occupied: set<int>, first: int, last: int)
    ensures var v := LowestFree(occupied, first, last);
      && (v.Some? ==> first <= v.value <= last && v.value !in occupied)
      && (v.Some? ==> forall u :: first <= u < v.value ==> u in occupied)
      && (v.None? ==> forall u :: first <= u <= last ==> u in occupied)
    decreases last - first
  {
    if first < last && first in occupied {
      LowestFreeIsLowest(occupied, first + 1, last);
    }
  }

  lemma {:induction false} LowestFreeFrom(occupied: set<int>, first: int, next: int, last: int)
    requires first <= next && forall u :: first <= u < next ==> u in occupied
    ensures LowestFree(occupied, first, last) == LowestFree(occupied, next, last)
    decreases next - first
  {
    if first < next {
      LowestFreeFrom(occupied, first + 1, next, last);
    }
  }

  method FindLowestAvailableVlan(occupied: set<int>, first: int, last: int) returns (r: Option<int>)
    ensures r == LowestFree(occupied, first, last)
  {
    var vlan := first;
    while vlan <= last
      invariant first <= vlan
      invariant forall u :: first <= u < vlan ==> u in occupied
    {
      if vlan !in occupied {
        LowestFreeFrom(occupied, first, vlan, last);
        return Some(vlan);
      }
      vlan := vlan + 1;
    }
    LowestFreeFrom(occupied, first, vlan, last);
    return None;
  }

  // ---- the plan, rescanning the pool for every group ---------------------------------------------------

  ghost predicate ValidRows(rows: seq<Row>, c: Config) {
    && (forall r :: r in rows ==> Unallocated(r) || Canonical(r, c))
    && (forall i, j :: 0 <= i < j < |rows| && rows[i].vlan.Some? && rows[j].vlan.Some? ==> rows[i].vlan != rows[j].vlan)
  }

  function Pins(rows: seq<Row>, c: Config): map<int, Slot> {
    if rows == [] then map[]
    else
      var last := rows[|rows| - 1];
      var slot := GetPersistedSlot(last, c);
      var front := Pins(rows[..|rows| - 1], c);
      if slot.Ok? && slot.value.Some? then front[last.id := slot.value.value] else front
  }

  function Taken(rows: seq<Row>): set<int> {
    set r | r in rows && r.vlan.Some? :: r.vlan.value
  }

  function Prepend(groups: seq<Projected>, rest: Option<seq<Projected>>): Option<seq<Projected>> {
    if rest.Some? then Some(groups + rest.value) else None
  }

  /** Each group without a slot takes the lowest VLAN nobody before it took, searched for from the start of the pool. */
  function Rescan(rows: seq<Row>, pins: map<int, Slot>, occupied: set<int>, c: Config): Option<seq<Projected>>
    requires ValidConfig(c)
    decreases |rows|
  {
    if rows == [] then Some([])
    else if rows[0].id in pins then
      Prepend([Projected(rows[0].id, pins[rows[0].id])], Rescan(rows[1..], pins, occupied, c))
    else
      var v := LowestFree(occupied, c.first, c.last);
      LowestFreeIsLowest(occupied, c.first, c.last);
      if v.None? then None
      else Prepend([Projected(rows[0].id, SlotOf(v.value, c))], Rescan(rows[1..], pins, occupied + {v.value}, c))
  }

  ghost function Plan(rows: seq<Row>, c: Config): Option<seq<Projected>> {
    var sorted := SortBy(RowKey, rows);
    if ValidConfig(c) && ValidRows(rows, c) then Rescan(sorted, Pins(sorted, c), Taken(rows), c) else None
  }

  // ---- the plan, with one cursor ------------------------------------------------------------------------------

  method BuildNetworkPlan(rows: seq<Row>, c: Config) returns (r: Option<seq<Projected>>)
    ensures r == Plan(rows, c)
  {
    if !ValidConfig(c) {
      return None;
    }
    var sorted := SortBy(RowKey, rows);
    SortByKeeps(RowKey, rows);
    ValidAnyOrder(rows, sorted, c);
    var persisted: map<int, Slot> := map[];
    var occupied: set<int> := {};
    for k := 0 to |sorted|
      invariant persisted == Pins(sorted[..k], c)
      invariant occupied == Taken(sorted[..k])
      invariant ValidRows(sorted[..k], c)
    {
      var row := sorted[k];
      var slot := GetPersistedSlot(row, c);
      OneMoreRow(sorted, k, c);
      if slot.Err? {
        return None;
      }
      if slot.value.None? {
        continue;
      }
      if slot.value.value.vlan in occupied {
        return None;
      }
      persisted := persisted[row.id := slot.value.value];
      occupied := occupied + {slot.value.value.vlan};
    }
    assert sorted[..|sorted|] == sorted;
    assert Taken(sorted) == Taken(rows);
    r := ProjectRows(sorted, persisted, occupied, c);
  }

  method ProjectRows(sorted: seq<Row>, persisted: map<int, Slot>, taken: set<int>, c: Config)
    returns (r: Option<seq<Projected>>)
    requires ValidConfig(c)
    ensures r == Rescan(sorted, persisted, taken, c)
  {
    var groups: seq<Projected> := [];
    var nextVlan, occupied := c.first, taken;
    assert sorted[0..] == sorted;
    PrependNothing(Rescan(sorted, persisted, taken, c));
    for k := 0 to |sorted|
      invariant c.first <= nextVlan <= c.last + 1
      invariant forall u :: c.first <= u < nextVlan ==> u in occupied
      invariant Rescan(sorted, persisted, taken, c) == Prepend(groups, Rescan(sorted[k..], persisted, occupied, c))
    {
      var row := sorted[k];
      assert sorted[k..][0] == row && sorted[k..][1..] == sorted[k + 1..];
      var slot: Slot;
      if row.id in persisted {
        slot := persisted[row.id];
      } else {
        while nextVlan <= c.last && nextVlan in occupied
          invariant c.first <= nextVlan <= c.last + 1
          invariant forall u :: c.first <= u < nextVlan ==> u in occupied
        {
          nextVlan := nextVlan + 1;
        }
        LowestFreeFrom(occupied, c.first, nextVlan, c.last);
        if nextVlan > c.last {
          return None;
        }
        slot := SlotOf(nextVlan, c);
        occupied := occupied + {nextVlan};
        nextVlan := nextVlan + 1;
      }
      PrependTwice(groups, Projected(row.id, slot), Rescan(sorted[k + 1..], persisted, occupied, c));
      groups := groups + [Projected(row.id, slot)];
    }
    assert sorted[|sorted|..] == [];
    assert groups + [] == groups;
    r := Some(groups);
  }

  lemma PrependNothing(rest: Option<seq<Projected>>)
    ensures Prepend([], rest) == rest
  {
    if rest.Some? {
      assert [] + rest.value == rest.value;
    }
  }

  lemma PrependTwice(groups: seq<Projected>, p: Projected, rest: Option<seq<Projected>>)
    ensures Prepend(groups, Prepend([p], rest)) == Prepend(groups + [p], rest)
  {
    if rest.Some? {
      assert groups + ([p] + rest.value) == groups + [p] + rest.value;
    }
  }

  lemma OneMoreRow(sorted: seq<Row>, k: nat, c: Config)
    requires k < |sorted| && ValidRows(sorted[..k], c)
    ensures var row, front, more := sorted[k], sorted[..k], sorted[..k + 1];
      && Pins(more, c) ==
           (if Canonical(row, c) then Pins(front, c)[row.id := GetPersistedSlot(row, c).value.value]
            else Pins(front, c))
      && Taken(more) == Taken(front) + (if row.vlan.Some? then {row.vlan.value} else {})
      && (ValidRows(more, c) <==> Unallocated(row) || (Canonical(row, c) && row.vlan.value !in Taken(front)))
      && (!ValidRows(more, c) ==> !ValidRows(sorted, c))
  {
    var front, more, row := sorted[..k], sorted[..k + 1], sorted[k];
    assert more == front + [row];
    assert more[..k] == front;
    OneMoreValid(front, row, c);
    if ValidRows(sorted, c) {
      forall r | r in more ensures Unallocated(r) || Canonical(r, c) { assert r in sorted; }
    }
  }

  lemma OneMoreValid(front: seq<Row>, row: Row, c: Config)
    requires ValidRows(front, c)
    ensures ValidRows(front + [row], c) <==> Unallocated(row) || (Canonical(row, c) && row.vlan.value !in Taken(front))
  {
    var more := front + [row];
    assert row == more[|front|];
    if row.vlan.Some? && row.vlan.value in Taken(front) {
      var r :| r in front && r.vlan == row.vlan;
      var i :| 0 <= i < |front| && front[i] == r;
      assert more[i].vlan == more[|front|].vlan;
    }
  }

  lemma ValidAnyOrder(a: seq<Row>, b: seq<Row>, c: Config)
    requires multiset(a) == multiset(b)
    ensures ValidRows(a, c) <==> ValidRows(b, c)
    ensures Taken(a) == Taken(b)
  {
    forall r ensures r in a <==> r in b { assert r in multiset(a) <==> r in multiset(b); }
    VlansRepeat(a);
    VlansRepeat(b);
  }

  ghost predicate VlansDistinct(rows: seq<Row>) {
    forall i, j :: 0 <= i < j < |rows| && rows[i].vlan.Some? && rows[j].vlan.Some? ==> rows[i].vlan != rows[j].vlan
  }

  lemma VlansRepeat(rows: seq<Row>)
    ensures VlansDistinct(rows) <==>
      && (forall r :: r in rows && r.vlan.Some? ==> multiset(rows)[r] == 1)
      && (forall r, s :: r in rows && s in rows && r.vlan.Some? && r.vlan == s.vlan ==> r == s)
  {
    if VlansDistinct(rows) {
      forall r | r in rows && r.vlan.Some? ensures multiset(rows)[r] == 1 {
        var i :| 0 <= i < |rows| && rows[i] == r;
        assert rows == rows[..i] + [r] + rows[i + 1..];
        assert r !in rows[..i] && r !in rows[i + 1..];
      }
    } else {
      var i, j :| 0 <= i < j < |rows| && rows[i].vlan.Some? && rows[j].vlan.Some? && rows[i].vlan == rows[j].vlan;
      if rows[i] == rows[j] {
        TwiceThere(rows, i, j);
      }
      assert rows[i] in rows && rows[j] in rows;
    }
  }

  lemma TwiceThere(rows: seq<Row>, i: nat, j: nat)
    requires i < j < |rows| && rows[i] == rows[j]
    ensures multiset(rows)[rows[i]] >= 2
  {
    assert rows == rows[..i] + [rows[i]] + rows[i + 1..];
    assert rows[i + 1..][j - i - 1] == rows[i];
  }
}
