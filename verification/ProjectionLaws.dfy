/** What the projection promises: order independence, exhaustion, and agreement with the allocator. */
module ProjectionLaws {
  import opened Base
  import opened Slots
  import opened Projection

  ghost predicate DistinctIds(rows: seq<Row>) {
    KeysDistinct(RowKey, rows)
  }

  /** The order in which the rows were read does not matter. */
  lemma PlanIgnoresOrder(a: seq<Row>, b: seq<Row>, c: Config)
    requires DistinctIds(a) && multiset(a) == multiset(b)
    ensures Plan(a, c) == Plan(b, c)
  {
    SortByKeeps(RowKey, a);
    SortByKeeps(RowKey, b);
    KeysDistinctSame(RowKey, SortBy(RowKey, a), a);
    SortedUnique(RowKey, SortBy(RowKey, a), SortBy(RowKey, b));
    ValidAnyOrder(a, b, c);
  }

  // ---- pins ------------------------------------------------------------------------------------------

  lemma {:induction false} PinsLookup(rows: seq<Row>, c: Config)
    requires DistinctIds(rows)
    ensures forall r :: r in rows ==> (r.id in Pins(rows, c) <==> Canonical(r, c))
    ensures forall r :: r in rows && Canonical(r, c) ==> Pins(rows, c)[r.id] == SlotOf(r.vlan.value, c)
    ensures forall id :: id in Pins(rows, c) ==> exists r :: r in rows && r.id == id && Canonical(r, c)
  {
    if rows != [] {
      var n := |rows| - 1;
      var front, last := rows[..n], rows[n];
      PinsLookup(front, c);
      assert rows == front + [last];
      forall r | r in front ensures r.id != last.id {
        var i :| 0 <= i < n && rows[i] == r;
        assert RowKey(rows[i]) != RowKey(rows[n]);
      }
    }
  }

  // ---- counting ----------------------------------------------------------------------------------------

  function Unpinned(rows: seq<Row>, pins: map<int, Slot>): nat {
    if rows == [] then 0 else (if rows[0].id in pins then 0 else 1) + Unpinned(rows[1..], pins)
  }

  lemma {:induction false} UnpinnedSnoc(rows: seq<Row>, r: Row, pins: map<int, Slot>)
    ensures Unpinned(rows + [r], pins) == Unpinned(rows, pins) + if r.id in pins then 0 else 1
  {
    if rows == [] {
    } else {
      assert (rows + [r])[1..] == rows[1..] + [r];
      UnpinnedSnoc(rows[1..], r, pins);
    }
  }

  lemma TakenSnoc(front: seq<Row>, last: Row, c: Config)
    requires ValidRows(front + [last], c)
    ensures ValidRows(front, c)
    ensures |Taken(front + [last])| == |Taken(front)| + if Canonical(last, c) then 1 else 0
  {
    var rows := front + [last];
    assert rows[|front|] == last;
    forall r | r in front ensures r in rows { }
    assert forall i :: 0 <= i < |front| ==> rows[i] == front[i];
    assert last in rows;
    if last.vlan.Some? {
      assert Taken(rows) == Taken(front) + {last.vlan.value};
      assert last.vlan.value !in Taken(front);
    } else {
      assert Taken(rows) == Taken(front);
    }
  }

  lemma {:induction false} TakenCount(rows: seq<Row>, pins: map<int, Slot>, c: Config)
    requires ValidRows(rows, c) && forall r :: r in rows ==> (r.id in pins <==> Canonical(r, c))
    ensures |Taken(rows)| + Unpinned(rows, pins) == |rows|
  {
    if rows != [] {
      var n := |rows| - 1;
      var front, last := rows[..n], rows[n];
      assert rows == front + [last];
      TakenSnoc(front, last, c);
      TakenCount(front, pins, c);
      UnpinnedSnoc(front, last, pins);
    }
  }

  function Pool(first: int, n: nat): (vlans: set<int>)
    ensures forall v :: v in vlans <==> first <= v < first + n
  {
    if n == 0 then {} else Pool(first, n - 1) + {first + n - 1}
  }

  lemma {:induction false} PoolSize(first: int, n: nat)
    ensures |Pool(first, n)| == n
  {
    if n > 0 {
      PoolSize(first, n - 1);
    }
  }

  lemma SubsetSize<T>(a: set<T>, b: set<T>)
    requires a <= b
    ensures |a| <= |b| && (|a| == |b| ==> a == b)
  {
    assert b == a + (b - a);
    assert a * (b - a) == {};
    assert |b| == |a| + |b - a|;
    if |a| == |b| { assert b - a == {}; }
  }

  lemma FullPool(occupied: set<int>, c: Config)
    requires ValidConfig(c) && occupied <= Pool(c.first, 256)
    ensures |occupied| <= 256 && (LowestFree(occupied, c.first, c.last) == None <==> |occupied| == 256)
  {
    PoolSize(c.first, 256);
    SubsetSize(occupied, Pool(c.first, 256));
    LowestFreeIsLowest(occupied, c.first, c.last);
    if LowestFree(occupied, c.first, c.last) == None {
      assert occupied == Pool(c.first, 256);
    }
  }

  lemma {:induction false} RescanFits(rows: seq<Row>, pins: map<int, Slot>, occupied: set<int>, c: Config)
    requires ValidConfig(c) && occupied <= Pool(c.first, 256)
    ensures Rescan(rows, pins, occupied, c).Some? <==> |occupied| + Unpinned(rows, pins) <= 256
    decreases |rows|
  {
    FullPool(occupied, c);
    if rows != [] {
      if rows[0].id in pins {
        RescanFits(rows[1..], pins, occupied, c);
      } else {
        var v := LowestFree(occupied, c.first, c.last);
        LowestFreeIsLowest(occupied, c.first, c.last);
        if v.Some? {
          RescanFits(rows[1..], pins, occupied + {v.value}, c);
        }
      }
    }
  }

  lemma TakenInPool(rows: seq<Row>, c: Config)
    requires ValidConfig(c) && ValidRows(rows, c)
    ensures Taken(rows) <= Pool(c.first, 256)
  { }

  lemma SortedRows(rows: seq<Row>, c: Config)
    requires DistinctIds(rows)
    ensures var sorted := SortBy(RowKey, rows);
      && |sorted| == |rows| && SortedBy(RowKey, sorted) && DistinctIds(sorted)
      && Taken(sorted) == Taken(rows) && (ValidRows(sorted, c) <==> ValidRows(rows, c))
      && forall r :: r in sorted <==> r in rows
  {
    SortByKeeps(RowKey, rows);
    KeysDistinctSame(RowKey, SortBy(RowKey, rows), rows);
    ValidAnyOrder(SortBy(RowKey, rows), rows, c);
  }

  /** Among valid rows the pool runs out exactly when there are more than 256 groups, allocated or not. */
  lemma ExhaustedExactly(rows: seq<Row>, c: Config)
    requires DistinctIds(rows) && ValidConfig(c) && ValidRows(rows, c)
    ensures Plan(rows, c).None? <==> |rows| > 256
  {
    var sorted := SortBy(RowKey, rows);
    SortedRows(rows, c);
    PinsLookup(sorted, c);
    TakenCount(sorted, Pins(sorted, c), c);
    TakenInPool(rows, c);
    RescanFits(sorted, Pins(sorted, c), Taken(rows), c);
  }

  // ---- who gets what --------------------------------------------------------------------------------------

  ghost predicate SlotsApart(groups: seq<Projected>) {
    forall i, j :: 0 <= i < j < |groups| ==> groups[i].slot.vlan != groups[j].slot.vlan
  }

  /** Projected slots are new to `occupied`, pairwise distinct, and canonical. */
  lemma {:induction false} RescanSlots(rows: seq<Row>, pins: map<int, Slot>, occupied: set<int>, c: Config)
    requires ValidConfig(c) && Rescan(rows, pins, occupied, c).Some?
    ensures var groups := Rescan(rows, pins, occupied, c).value;
      && |groups| == |rows|
      && (forall k :: 0 <= k < |rows| ==> groups[k].id == rows[k].id)
      && (forall k :: 0 <= k < |rows| && rows[k].id in pins ==> groups[k].slot == pins[rows[k].id])
      && (forall k :: 0 <= k < |rows| && rows[k].id !in pins ==>
            && groups[k].slot.vlan !in occupied && InPool(groups[k].slot.vlan, c)
            && groups[k].slot == SlotOf(groups[k].slot.vlan, c))
      && (forall i, j :: 0 <= i < j < |rows| && rows[i].id !in pins && rows[j].id !in pins ==>
            groups[i].slot.vlan != groups[j].slot.vlan)
    decreases |rows|
  {
    if rows != [] {
      var v := LowestFree(occupied, c.first, c.last);
      LowestFreeIsLowest(occupied, c.first, c.last);
      var next := if rows[0].id in pins then occupied else occupied + {v.value};
      RescanSlots(rows[1..], pins, next, c);
      var groups, rest := Rescan(rows, pins, occupied, c).value, Rescan(rows[1..], pins, next, c).value;
      assert groups[1..] == rest;
      assert forall k :: 0 < k < |rows| ==> groups[k] == rest[k - 1] && rows[k] == rows[1..][k - 1];
    }
  }

  ghost predicate PlannedAs(p: Projected, row: Row, taken: set<int>, c: Config)
    requires ValidConfig(c)
  {
    && p.id == row.id
    && InPool(p.slot.vlan, c) && p.slot == SlotOf(p.slot.vlan, c)
    && (if Unallocated(row) then p.slot.vlan !in taken else Some(p.slot.vlan) == row.vlan)
  }

  lemma PlannedSlot(rows: seq<Row>, c: Config, k: nat)
    requires DistinctIds(rows) && Plan(rows, c).Some? && k < |rows|
    ensures var sorted, groups := SortBy(RowKey, rows), Plan(rows, c).value;
      |groups| == |sorted| == |rows| && PlannedAs(groups[k], sorted[k], Taken(rows), c)
  {
    var sorted := SortBy(RowKey, rows);
    SortedRows(rows, c);
    PinsLookup(sorted, c);
    RescanSlots(sorted, Pins(sorted, c), Taken(rows), c);
    assert sorted[k] in sorted;
  }

  /** Two allocated rows hold different VLANs, two others were given different free ones, and a free one is not held. */
  lemma PlannedApart(rows: seq<Row>, c: Config, i: nat, j: nat)
    requires DistinctIds(rows) && Plan(rows, c).Some? && i < j < |rows| && |Plan(rows, c).value| == |rows|
    ensures Plan(rows, c).value[i].slot.vlan != Plan(rows, c).value[j].slot.vlan
  {
    var sorted := SortBy(RowKey, rows);
    SortedRows(rows, c);
    PlannedSlot(rows, c, i);
    PlannedSlot(rows, c, j);
    assert sorted[i] in sorted && sorted[j] in sorted;
    if Unallocated(sorted[i]) && Unallocated(sorted[j]) {
      PinsLookup(sorted, c);
      RescanSlots(sorted, Pins(sorted, c), Taken(rows), c);
    }
  }

  /** Every group is planned once, on the slot it holds or on a free one, and no two share a slot. */
  lemma PlanSlots(rows: seq<Row>, c: Config)
    requires DistinctIds(rows) && Plan(rows, c).Some?
    ensures var sorted, groups := SortBy(RowKey, rows), Plan(rows, c).value;
      && |groups| == |sorted| == |rows| && SlotsApart(groups)
      && forall k :: 0 <= k < |groups| ==> PlannedAs(groups[k], sorted[k], Taken(rows), c)
  {
    var sorted, groups := SortBy(RowKey, rows), Plan(rows, c).value;
    SortedRows(rows, c);
    if rows != [] { PlannedSlot(rows, c, 0); }
    forall k | 0 <= k < |rows| ensures PlannedAs(groups[k], sorted[k], Taken(rows), c) { PlannedSlot(rows, c, k); }
    forall i, j | 0 <= i < j < |rows| ensures groups[i].slot.vlan != groups[j].slot.vlan {
      PlannedApart(rows, c, i, j);
    }
  }

  // ---- agreement with the allocator ---------------------------------------------------------------------------

  lemma {:induction false} FirstUnpinned(rows: seq<Row>, pins: map<int, Slot>, occupied: set<int>, c: Config, k: nat)
    requires ValidConfig(c) && Rescan(rows, pins, occupied, c).Some?
    requires k < |rows| && rows[k].id !in pins && forall j :: 0 <= j < k ==> rows[j].id in pins
    ensures |Rescan(rows, pins, occupied, c).value| > k
    ensures LowestFree(occupied, c.first, c.last) == Some(Rescan(rows, pins, occupied, c).value[k].slot.vlan)
    decreases k
  {
    LowestFreeIsLowest(occupied, c.first, c.last);
    if k > 0 {
      assert forall j :: 0 <= j < k - 1 ==> rows[1..][j] == rows[j + 1];
      FirstUnpinned(rows[1..], pins, occupied, c, k - 1);
    }
  }

  /** The allocator, which takes the lowest VLAN nobody holds, agrees with the projection of an unallocated group
      exactly when that group has the lowest id of all the unallocated ones. */
  lemma AllocatorAgreesExactly(rows: seq<Row>, c: Config, k: nat)
    requires DistinctIds(rows) && Plan(rows, c).Some? && k < |SortBy(RowKey, rows)|
      && Unallocated(SortBy(RowKey, rows)[k])
    ensures k < |Plan(rows, c).value|
    ensures LowestFree(Taken(rows), c.first, c.last) == Some(Plan(rows, c).value[k].slot.vlan) <==>
      forall j :: 0 <= j < k ==> !Unallocated(SortBy(RowKey, rows)[j])
  {
    PlanSlots(rows, c);
    var first := EarliestUnallocated(SortBy(RowKey, rows), k);
    EarliestPick(rows, c, first);
  }

  lemma EarliestPick(rows: seq<Row>, c: Config, first: nat)
    requires DistinctIds(rows) && Plan(rows, c).Some?
    requires first < |SortBy(RowKey, rows)| && Unallocated(SortBy(RowKey, rows)[first])
    requires forall j :: 0 <= j < first ==> !Unallocated(SortBy(RowKey, rows)[j])
    ensures first < |Plan(rows, c).value|
    ensures LowestFree(Taken(rows), c.first, c.last) == Some(Plan(rows, c).value[first].slot.vlan)
  {
    var sorted := SortBy(RowKey, rows);
    SortedRows(rows, c);
    PinsLookup(sorted, c);
    forall j | 0 <= j < first ensures sorted[j].id in Pins(sorted, c) {
      assert sorted[j] in sorted;
    }
    assert sorted[first] in sorted;
    FirstUnpinned(sorted, Pins(sorted, c), Taken(rows), c, first);
  }

  lemma EarliestUnallocated(rows: seq<Row>, k: nat) returns (first: nat)
    requires k < |rows| && Unallocated(rows[k])
    ensures first <= k && Unallocated(rows[first]) && forall j :: 0 <= j < first ==> !Unallocated(rows[j])
  {
    first := 0;
    while !Unallocated(rows[first])
      invariant first <= k && forall j :: 0 <= j < first ==> !Unallocated(rows[j])
      decreases k - first
    {
      first := first + 1;
    }
  }

  // ---- persisting a projected slot -----------------------------------------------------------------------------

  function CanonicalRow(id: int, vlan: int, c: Config): Row
    requires ValidConfig(c) && InPool(vlan, c)
  {
    Row(id, Some(vlan), Some(SlotOf(vlan, c).vnet), Some(SlotOf(vlan, c).subnet))
  }

  function Persist(rows: seq<Row>, id: int, vlan: int, c: Config): (r: seq<Row>)
    requires ValidConfig(c) && InPool(vlan, c)
    ensures |r| == |rows|
    ensures forall k :: 0 <= k < |rows| ==> r[k] == if rows[k].id == id then CanonicalRow(id, vlan, c) else rows[k]
  {
    seq(|rows|, k requires 0 <= k < |rows| => if rows[k].id == id then CanonicalRow(id, vlan, c) else rows[k])
  }

  lemma {:induction false} RescanById(a: seq<Row>, b: seq<Row>, pins: map<int, Slot>, more: map<int, Slot>,
                                      occupied: set<int>, c: Config)
    requires ValidConfig(c) && |a| == |b| && forall k :: 0 <= k < |a| ==> a[k].id == b[k].id
    requires forall k :: 0 <= k < |a| ==>
      (a[k].id in pins <==> a[k].id in more) && (a[k].id in pins ==> pins[a[k].id] == more[a[k].id])
    ensures Rescan(a, pins, occupied, c) == Rescan(b, more, occupied, c)
    decreases |a|
  {
    if a != [] {
      forall k | 0 <= k < |a[1..]| ensures a[1..][k] == a[k + 1] && b[1..][k] == b[k + 1] { }
      var v := LowestFree(occupied, c.first, c.last);
      LowestFreeIsLowest(occupied, c.first, c.last);
      if a[0].id in pins {
        RescanById(a[1..], b[1..], pins, more, occupied, c);
      } else if v.Some? {
        RescanById(a[1..], b[1..], pins, more, occupied + {v.value}, c);
      }
    }
  }

  lemma {:induction false} RescanPersisted(a: seq<Row>, b: seq<Row>, pins: map<int, Slot>, occupied: set<int>,
                                           c: Config, k: nat, v: int)
    requires ValidConfig(c) && |a| == |b| && forall j :: 0 <= j < |a| ==> a[j].id == b[j].id
    requires KeysDistinct(RowKey, a)
    requires k < |a| && a[k].id !in pins && forall j :: 0 <= j < k ==> a[j].id in pins
    requires LowestFree(occupied, c.first, c.last) == Some(v) && InPool(v, c)
    ensures Rescan(a, pins, occupied, c) == Rescan(b, pins[a[k].id := SlotOf(v, c)], occupied + {v}, c)
    decreases k
  {
    var more := pins[a[k].id := SlotOf(v, c)];
    forall j | 0 <= j < |a[1..]| ensures a[1..][j] == a[j + 1] && b[1..][j] == b[j + 1] { }
    if k == 0 {
      forall j | 0 <= j < |a[1..]| ensures a[1..][j].id != a[0].id {
        assert RowKey(a[0]) != RowKey(a[j + 1]);
      }
      RescanById(a[1..], b[1..], pins, more, occupied + {v}, c);
    } else {
      forall i, j | 0 <= i < j < |a[1..]| ensures RowKey(a[1..][i]) != RowKey(a[1..][j]) {
        assert RowKey(a[i + 1]) != RowKey(a[j + 1]);
      }
      assert a[0].id != a[k].id by { assert RowKey(a[0]) != RowKey(a[k]); }
      RescanPersisted(a[1..], b[1..], pins, occupied, c, k - 1, v);
    }
  }

  lemma PersistedRows(rows: seq<Row>, k: nat, v: int, c: Config)
    requires ValidConfig(c) && InPool(v, c) && DistinctIds(rows) && ValidRows(rows, c)
    requires k < |rows| && Unallocated(rows[k]) && v !in Taken(rows)
    ensures var next := Persist(rows, rows[k].id, v, c);
      && DistinctIds(next) && ValidRows(next, c) && Taken(next) == Taken(rows) + {v}
  {
    var next := Persist(rows, rows[k].id, v, c);
    forall i, j | 0 <= i < j < |rows| ensures RowKey(next[i]) != RowKey(next[j]) {
      assert RowKey(rows[i]) != RowKey(rows[j]);
    }
    forall j | 0 <= j < |rows| ensures next[j] == if j == k then CanonicalRow(rows[k].id, v, c) else rows[j] {
      if j < k { assert RowKey(rows[j]) != RowKey(rows[k]); }
      if k < j { assert RowKey(rows[k]) != RowKey(rows[j]); }
    }
    forall r | r in next ensures Unallocated(r) || Canonical(r, c) {
      var j :| 0 <= j < |next| && next[j] == r;
      if j != k { assert rows[j] in rows; }
    }
    forall i, j | 0 <= i < j < |next| && next[i].vlan.Some? && next[j].vlan.Some? ensures next[i].vlan != next[j].vlan {
      assert rows[i] in rows && rows[j] in rows;
    }
    forall u ensures u in Taken(next) <==> u in Taken(rows) || u == v {
      if u in Taken(rows) {
        var r :| r in rows && r.vlan == Some(u);
        var j :| 0 <= j < |rows| && rows[j] == r;
        assert next[j] in next;
      }
      if u == v { assert next[k] in next; }
    }
  }

  lemma PersistedPins(rows: seq<Row>, k: nat, v: int, c: Config)
    requires ValidConfig(c) && InPool(v, c) && DistinctIds(rows) && ValidRows(rows, c)
    requires k < |rows| && Unallocated(rows[k]) && v !in Taken(rows)
    ensures Pins(Persist(rows, rows[k].id, v, c), c) == Pins(rows, c)[rows[k].id := SlotOf(v, c)]
  {
    var id := rows[k].id;
    var before, after := Pins(rows, c), Pins(Persist(rows, id, v, c), c);
    forall x: int ensures x in after <==> x in before || x == id { PinnedStays(rows, k, v, c, x); }
    forall x: int | x in after ensures after[x] == before[id := SlotOf(v, c)][x] { PinnedSlot(rows, k, v, c, x); }
  }

  lemma PinnedStays(rows: seq<Row>, k: nat, v: int, c: Config, x: int)
    requires ValidConfig(c) && InPool(v, c) && DistinctIds(rows) && ValidRows(rows, c)
    requires k < |rows| && Unallocated(rows[k]) && v !in Taken(rows)
    ensures x in Pins(Persist(rows, rows[k].id, v, c), c) <==> x in Pins(rows, c) || x == rows[k].id
  {
    var id := rows[k].id;
    var next := Persist(rows, id, v, c);
    PersistedRows(rows, k, v, c);
    PinsLookup(rows, c);
    PinsLookup(next, c);
    assert next[k] in next && next[k] == CanonicalRow(id, v, c);
    if x in Pins(rows, c) {
      var r :| r in rows && r.id == x && Canonical(r, c);
      var j :| 0 <= j < |rows| && rows[j] == r;
      assert next[j] in next;
    }
  }

  lemma PinnedSlot(rows: seq<Row>, k: nat, v: int, c: Config, x: int)
    requires ValidConfig(c) && InPool(v, c) && DistinctIds(rows) && ValidRows(rows, c)
    requires k < |rows| && Unallocated(rows[k]) && v !in Taken(rows)
    requires x in Pins(Persist(rows, rows[k].id, v, c), c) && (x in Pins(rows, c) || x == rows[k].id)
    ensures Pins(Persist(rows, rows[k].id, v, c), c)[x] == Pins(rows, c)[rows[k].id := SlotOf(v, c)][x]
  {
    var id := rows[k].id;
    var next := Persist(rows, id, v, c);
    PersistedRows(rows, k, v, c);
    var r := PinRow(next, c, x);
    if x == id {
      assert next[k] in next && next[k] == CanonicalRow(id, v, c) && next[k].id == r.id;
    } else {
      assert r in rows;
      PinsLookup(rows, c);
    }
  }

  lemma PinRow(rows: seq<Row>, c: Config, x: int) returns (r: Row)
    requires DistinctIds(rows) && ValidRows(rows, c) && x in Pins(rows, c)
    ensures r in rows && r.id == x && Canonical(r, c)
    ensures InPool(r.vlan.value, c) && ValidConfig(c) && Pins(rows, c)[x] == SlotOf(r.vlan.value, c)
  {
    PinsLookup(rows, c);
    r :| r in rows && r.id == x && Canonical(r, c);
  }

  lemma PersistKeys(rows: seq<Row>, id: int, v: int, c: Config)
    requires ValidConfig(c) && InPool(v, c)
    ensures DistinctIds(rows) ==> DistinctIds(Persist(rows, id, v, c))
    ensures SortedBy(RowKey, rows) ==> SortedBy(RowKey, Persist(rows, id, v, c))
  {
    var next := Persist(rows, id, v, c);
    assert forall k :: 0 <= k < |rows| ==> RowKey(next[k]) == RowKey(rows[k]);
  }

  lemma PersistElement(rows: seq<Row>, id: int, v: int, c: Config, x: Row)
    requires ValidConfig(c) && InPool(v, c)
    ensures x in Persist(rows, id, v, c) <==>
      exists r :: r in rows && x == if r.id == id then CanonicalRow(id, v, c) else r
  {
    var next := Persist(rows, id, v, c);
    if x in next {
      var k :| 0 <= k < |next| && next[k] == x;
      assert rows[k] in rows;
    }
    if r :| r in rows && x == if r.id == id then CanonicalRow(id, v, c) else r {
      var k :| 0 <= k < |rows| && rows[k] == r;
      assert next[k] == x;
    }
  }

  lemma PersistSorted(rows: seq<Row>, id: int, v: int, c: Config)
    requires ValidConfig(c) && InPool(v, c) && DistinctIds(rows)
    ensures SortBy(RowKey, Persist(rows, id, v, c)) == Persist(SortBy(RowKey, rows), id, v, c)
  {
    var sorted := SortBy(RowKey, rows);
    var a, b := Persist(rows, id, v, c), Persist(sorted, id, v, c);
    SortByKeeps(RowKey, rows);
    SortByKeeps(RowKey, a);
    KeysDistinctSame(RowKey, sorted, rows);
    PersistKeys(rows, id, v, c);
    PersistKeys(sorted, id, v, c);
    KeysDistinctElements(RowKey, a);
    KeysDistinctElements(RowKey, b);
    forall r ensures r in a <==> r in b {
      PersistElement(rows, id, v, c, r);
      PersistElement(sorted, id, v, c, r);
    }
    SameElements(a, b);
    SortedUnique(RowKey, b, SortBy(RowKey, a));
  }

  lemma PersistedPlan(rows: seq<Row>, id: int, v: int, c: Config)
    requires DistinctIds(rows) && ValidRows(rows, c) && ValidConfig(c) && InPool(v, c) && v !in Taken(rows)
    requires exists r :: r in rows && r.id == id && Unallocated(r)
    ensures var next := Persist(SortBy(RowKey, rows), id, v, c);
      Plan(Persist(rows, id, v, c), c) == Rescan(next, Pins(next, c), Taken(rows) + {v}, c)
  {
    var r :| r in rows && r.id == id && Unallocated(r);
    var j :| 0 <= j < |rows| && rows[j] == r;
    PersistedRows(rows, j, v, c);
    PersistSorted(rows, id, v, c);
  }

  lemma PersistAt(rows: seq<Row>, c: Config, sorted: seq<Row>, k: nat, v: int)
    requires DistinctIds(rows) && ValidConfig(c) && ValidRows(rows, c) && sorted == SortBy(RowKey, rows)
    requires k < |sorted| && Unallocated(sorted[k]) && forall j :: 0 <= j < k ==> !Unallocated(sorted[j])
    requires LowestFree(Taken(rows), c.first, c.last) == Some(v) && InPool(v, c) && v !in Taken(rows)
    ensures Plan(Persist(rows, sorted[k].id, v, c), c) == Plan(rows, c)
  {
    SortedRows(rows, c);
    assert sorted[k] in sorted;
    PersistedPlan(rows, sorted[k].id, v, c);
    PersistedPins(sorted, k, v, c);
    EarlierPinned(sorted, k, c);
    RescanPersisted(sorted, Persist(sorted, sorted[k].id, v, c), Pins(sorted, c), Taken(rows), c, k, v);
  }

  /** Writing the allocator's slot into the unallocated group with the lowest id leaves the whole plan as it was. */
  lemma PersistingKeepsPlan(rows: seq<Row>, c: Config, k: nat)
    requires DistinctIds(rows) && Plan(rows, c).Some? && k < |SortBy(RowKey, rows)|
      && Unallocated(SortBy(RowKey, rows)[k])
    requires forall j :: 0 <= j < k ==> !Unallocated(SortBy(RowKey, rows)[j])
    ensures var v := LowestFree(Taken(rows), c.first, c.last);
      && v.Some? && InPool(v.value, c)
      && Plan(Persist(rows, SortBy(RowKey, rows)[k].id, v.value, c), c) == Plan(rows, c)
  {
    AllocatorAgreesExactly(rows, c, k);
    LowestFreeIsLowest(Taken(rows), c.first, c.last);
    PersistAt(rows, c, SortBy(RowKey, rows), k, LowestFree(Taken(rows), c.first, c.last).value);
  }

  lemma EarlierPinned(sorted: seq<Row>, k: nat, c: Config)
    requires DistinctIds(sorted) && ValidRows(sorted, c) && k < |sorted| && Unallocated(sorted[k])
    requires forall j :: 0 <= j < k ==> !Unallocated(sorted[j])
    ensures sorted[k].id !in Pins(sorted, c) && forall j :: 0 <= j < k ==> sorted[j].id in Pins(sorted, c)
  {
    PinsLookup(sorted, c);
    assert sorted[k] in sorted;
    forall j | 0 <= j < k ensures sorted[j].id in Pins(sorted, c) { assert sorted[j] in sorted; }
  }
}
