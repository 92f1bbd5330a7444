/** Instance reservations: count and insert inside one transaction, under a lock per owner. */
module Quota {
  import opened Base

  /** An unusable setting falls back to one instead of lifting the limit. */
  function EffectiveLimit(setting: Option<int>): (limit: nat)
    ensures setting.Some? && setting.value >= 0 ==> limit == setting.value
    ensures setting.None? || setting.value < 0 ==> limit == 1
  {
    if setting.Some? && setting.value >= 0 then setting.value else 1
  }

  type Rows = map<int, string>

  function Owned(rows: Rows, owner: string): nat {
    |set r | r in rows && rows[r] == owner|
  }

  // ---- one reservation at a time ------------------------------------------------------------------------

  class InstanceTable {
    var rows: Rows
    var nextId: int

    ghost predicate Valid() reads this { forall r :: r in rows ==> r < nextId }

    method ReserveInstance(owner: string, setting: Option<int>, enforce: bool) returns (r: Result<int, nat>)
      requires Valid()
      modifies this
      ensures Valid()
      ensures r.Err? <==> enforce && Owned(old(rows), owner) >= EffectiveLimit(setting)
      ensures r.Err? ==> rows == old(rows) && r.error == EffectiveLimit(setting)
      ensures r.Ok? ==> r.value !in old(rows) && rows == old(rows)[r.value := owner]
    {
      var owned := Owned(rows, owner);
      var limit := EffectiveLimit(setting);
      if enforce && owned >= limit {
        return Err(limit);
      }
      var id := nextId;
      rows := rows[id := owner];
      nextId := nextId + 1;
      return Ok(id);
    }
  }

  // ---- many reservations interleaved ------------------------------------------------------------------------

  datatype Phase = Waiting | Locked | Counted(owned: nat) | Inserted(owned: nat)

  datatype Session = Session(owner: string, enforce: bool, phase: Phase)

  /** `locks` holds the advisory keys in use, and by which session; `rows` are the committed rows. */
  datatype World = World(rows: Rows, nextId: int, sessions: map<int, Session>, locks: map<int, int>)

  datatype Event =
    | Start(session: int, owner: string, enforce: bool) | Acquire(session: int) | Count(session: int)
    | Insert(session: int) | Refuse(session: int) | Commit(session: int) | Abort(session: int) | Delete(row: int)

  /** Advisory keys are hashes of owners; two owners may share one. */
  type Key = string -> int

  /** `locking` is how the code is written; without it a session would count as soon as it has begun. */
  ghost predicate Enabled(w: World, e: Event, key: Key, limit: nat, locking: bool) {
    match e
    case Start(s, _, _) => s !in w.sessions
    case Acquire(s) => s in w.sessions && w.sessions[s].phase == Waiting && key(w.sessions[s].owner) !in w.locks
    case Count(s) =>
      s in w.sessions && (w.sessions[s].phase == Locked || (!locking && w.sessions[s].phase == Waiting))
    case Insert(s) => s in w.sessions && w.sessions[s].phase.Counted? && !OverLimit(w.sessions[s], limit)
    case Refuse(s) => s in w.sessions && w.sessions[s].phase.Counted? && OverLimit(w.sessions[s], limit)
    case Commit(s) => s in w.sessions && w.sessions[s].phase.Inserted?
    case Abort(s) => s in w.sessions
    case Delete(row) => true
  }

  predicate OverLimit(x: Session, limit: nat)
    requires x.phase.Counted?
  {
    x.enforce && x.phase.owned >= limit
  }

  function SetPhase(w: World, s: int, p: Phase): World
    requires s in w.sessions
  {
    w.(sessions := w.sessions[s := w.sessions[s].(phase := p)])
  }

  /** Ending a transaction releases its lock. */
  function End(w: World, s: int): World {
    w.(sessions := w.sessions - {s}, locks := map k | k in w.locks && w.locks[k] != s :: w.locks[k])
  }

  ghost function Step(w: World, e: Event, key: Key, limit: nat, locking: bool): World
    requires Enabled(w, e, key, limit, locking)
  {
    match e
    case Start(s, owner, enforce) => w.(sessions := w.sessions[s := Session(owner, enforce, Waiting)])
    case Acquire(s) => SetPhase(w, s, Locked).(locks := w.locks[key(w.sessions[s].owner) := s])
    case Count(s) => SetPhase(w, s, Counted(Owned(w.rows, w.sessions[s].owner)))
    case Insert(s) => SetPhase(w, s, Inserted(w.sessions[s].phase.owned))
    case Refuse(s) => End(w, s)
    case Commit(s) => End(w.(rows := w.rows[w.nextId := w.sessions[s].owner], nextId := w.nextId + 1), s)
    case Abort(s) => End(w, s)
    case Delete(row) => w.(rows := w.rows - {row})
  }

  predicate InCritical(p: Phase) { p != Waiting }

  function CountedRows(p: Phase): Option<nat> {
    match p
    case Counted(n) => Some(n)
    case Inserted(n) => Some(n)
    case _ => None
  }

  /** A session past the lock holds it, nobody counted fewer rows than there are now, and limits are respected. */
  ghost predicate Inv(w: World, key: Key, limit: nat, owner: string) {
    && (forall r :: r in w.rows ==> r < w.nextId)
    && (forall s :: s in w.sessions && InCritical(w.sessions[s].phase) ==>
          key(w.sessions[s].owner) in w.locks && w.locks[key(w.sessions[s].owner)] == s)
    && (forall s :: s in w.sessions && w.sessions[s].owner == owner ==> SessionOk(w, w.sessions[s], limit, owner))
    && Owned(w.rows, owner) <= limit
  }

  ghost predicate SessionOk(w: World, x: Session, limit: nat, owner: string) {
    && x.enforce
    && (CountedRows(x.phase).Some? ==> Owned(w.rows, owner) <= CountedRows(x.phase).value)
    && (x.phase.Inserted? ==> x.phase.owned < limit)
  }

  /** The owner is subject to the limit: none of its sessions is exempt. */
  predicate Enforced(e: Event, owner: string) {
    e.Start? && e.owner == owner ==> e.enforce
  }

  lemma OwnedAfterInsert(rows: Rows, id: int, who: string, owner: string)
    requires id !in rows
    ensures Owned(rows[id := who], owner) == Owned(rows, owner) + if who == owner then 1 else 0
  {
    var next := rows[id := who];
    var before, after := set r | r in rows && rows[r] == owner, set r | r in next && next[r] == owner;
    assert after == if who == owner then before + {id} else before;
  }

  lemma OwnedAfterDelete(rows: Rows, id: int, owner: string)
    ensures Owned(rows - {id}, owner) <= Owned(rows, owner)
  {
    var next := rows - {id};
    var before, after := set r | r in rows && rows[r] == owner, set r | r in next && next[r] == owner;
    assert after == before - {id};
  }

  lemma CommitKeeps(w: World, s: int, key: Key, limit: nat, owner: string)
    requires Inv(w, key, limit, owner) && s in w.sessions && w.sessions[s].phase.Inserted?
    ensures Inv(Step(w, Commit(s), key, limit, true), key, limit, owner)
  {
    var next := Step(w, Commit(s), key, limit, true);
    OwnedAfterInsert(w.rows, w.nextId, w.sessions[s].owner, owner);
    forall x | x in next.sessions && next.sessions[x].owner == owner
      ensures SessionOk(next, next.sessions[x], limit, owner)
    {
      assert SessionOk(w, w.sessions[x], limit, owner);
    }
  }

  lemma DeleteKeeps(w: World, row: int, key: Key, limit: nat, owner: string)
    requires Inv(w, key, limit, owner)
    ensures Inv(Step(w, Delete(row), key, limit, true), key, limit, owner)
  {
    var next := Step(w, Delete(row), key, limit, true);
    OwnedAfterDelete(w.rows, row, owner);
    forall x | x in next.sessions && next.sessions[x].owner == owner
      ensures SessionOk(next, next.sessions[x], limit, owner)
    {
      assert SessionOk(w, w.sessions[x], limit, owner);
    }
  }

  lemma StepKeeps(w: World, e: Event, key: Key, limit: nat, owner: string)
    requires Inv(w, key, limit, owner) && Enabled(w, e, key, limit, true) && Enforced(e, owner)
    ensures Inv(Step(w, e, key, limit, true), key, limit, owner)
  {
    match e
    case Commit(s) => CommitKeeps(w, s, key, limit, owner);
    case Delete(row) => DeleteKeeps(w, row, key, limit, owner);
    case _ =>
      var next := Step(w, e, key, limit, true);
      assert next.rows == w.rows;
      forall x | x in next.sessions && next.sessions[x].owner == owner
        ensures SessionOk(next, next.sessions[x], limit, owner) { }
  }

  ghost predicate Run(w: World, events: seq<Event>, key: Key, limit: nat, locking: bool, owner: string)
    decreases |events|
  {
    events == [] ||
    (Enabled(w, events[0], key, limit, locking) && Enforced(events[0], owner)
     && Run(Step(w, events[0], key, limit, locking), events[1..], key, limit, locking, owner))
  }

  ghost function After(w: World, events: seq<Event>, key: Key, limit: nat, locking: bool, owner: string): World
    requires Run(w, events, key, limit, locking, owner)
    decreases |events|
  {
    if events == [] then w else After(Step(w, events[0], key, limit, locking), events[1..], key, limit, locking, owner)
  }

  /** However creates and deletes interleave, an owner under the limit never has more committed instances than it. */
  lemma {:induction false} QuotaHolds(w: World, events: seq<Event>, key: Key, limit: nat, owner: string)
    requires Inv(w, key, limit, owner) && Run(w, events, key, limit, true, owner)
    ensures Owned(After(w, events, key, limit, true, owner).rows, owner) <= limit
    decreases |events|
  {
    if events != [] {
      StepKeeps(w, events[0], key, limit, owner);
      QuotaHolds(Step(w, events[0], key, limit, true), events[1..], key, limit, owner);
    }
  }

  const START: World := World(map[], 0, map[], map[])

  lemma EmptyHolds(key: Key, limit: nat, owner: string)
    ensures Inv(START, key, limit, owner)
  {
    var none: Rows := map[];
    assert (set r | r in none && none[r] == owner) == {};
  }

  // ---- counting without the lock ------------------------------------------------------------------------------

  lemma OneMoreEvent(w: World, e: Event, rest: seq<Event>, key: Key, limit: nat, locking: bool, owner: string)
    requires Enabled(w, e, key, limit, locking) && Enforced(e, owner)
    requires Run(Step(w, e, key, limit, locking), rest, key, limit, locking, owner)
    ensures Run(w, [e] + rest, key, limit, locking, owner)
    ensures After(w, [e] + rest, key, limit, locking, owner) ==
      After(Step(w, e, key, limit, locking), rest, key, limit, locking, owner)
  {
    assert ([e] + rest)[1..] == rest;
  }

  function Racing(a: int, b: int, owner: string): seq<Event> {
    [Start(a, owner, true)] + ([Start(b, owner, true)] + ([Count(a)] + ([Count(b)]
    + ([Insert(a)] + ([Insert(b)] + ([Commit(a)] + ([Commit(b)] + [])))))))
  }

  function Begun(w: World, s: int, owner: string, p: Phase): World {
    w.(sessions := w.sessions[s := Session(owner, true, p)])
  }

  /** Two sessions that have both passed the check commit one after the other. */
  lemma BothCommit(w: World, key: Key, limit: nat, owner: string, a: int, b: int, p: Phase, q: Phase)
    requires a != b && a in w.sessions && b in w.sessions && (forall r :: r in w.rows ==> r < w.nextId)
    requires p.Inserted? && q.Inserted?
    requires w.sessions[a] == Session(owner, true, p) && w.sessions[b] == Session(owner, true, q)
    ensures var rest := [Commit(a)] + ([Commit(b)] + []);
      && Run(w, rest, key, limit, false, owner)
      && Owned(After(w, rest, key, limit, false, owner).rows, owner) == Owned(w.rows, owner) + 2
  {
    var v := Step(w, Commit(a), key, limit, false);
    OwnedAfterInsert(w.rows, w.nextId, owner, owner);
    OwnedAfterInsert(v.rows, v.nextId, owner, owner);
    OneMoreEvent(v, Commit(b), [], key, limit, false, owner);
    OneMoreEvent(w, Commit(a), [Commit(b)] + [], key, limit, false, owner);
  }

  /** Counting without the lock lets two sessions that begin one below the limit both pass it. */
  lemma Race(w: World, key: Key, limit: nat, owner: string, a: int, b: int)
    requires (forall r :: r in w.rows ==> r < w.nextId) && Owned(w.rows, owner) < limit
    requires a != b && a !in w.sessions && b !in w.sessions
    ensures Run(w, Racing(a, b, owner), key, limit, false, owner)
    ensures Owned(After(w, Racing(a, b, owner), key, limit, false, owner).rows, owner) == Owned(w.rows, owner) + 2
  {
    var n := Owned(w.rows, owner);
    var w1 := Begun(w, a, owner, Waiting);
    var w2 := Begun(w1, b, owner, Waiting);
    var w3 := Begun(w2, a, owner, Counted(n));
    var w4 := Begun(w3, b, owner, Counted(n));
    var w5 := Begun(w4, a, owner, Inserted(n));
    var w6 := Begun(w5, b, owner, Inserted(n));
    var rest := [Commit(a)] + ([Commit(b)] + []);
    BothCommit(w6, key, limit, owner, a, b, Inserted(n), Inserted(n));
    OneMoreEvent(w5, Insert(b), rest, key, limit, false, owner);
    OneMoreEvent(w4, Insert(a), [Insert(b)] + rest, key, limit, false, owner);
    OneMoreEvent(w3, Count(b), [Insert(a)] + ([Insert(b)] + rest), key, limit, false, owner);
    OneMoreEvent(w2, Count(a), [Count(b)] + ([Insert(a)] + ([Insert(b)] + rest)), key, limit, false, owner);
    var counting := [Count(a)] + ([Count(b)] + ([Insert(a)] + ([Insert(b)] + rest)));
    OneMoreEvent(w1, Start(b, owner, true), counting, key, limit, false, owner);
    OneMoreEvent(w, Start(a, owner, true), [Start(b, owner, true)] + counting, key, limit, false, owner);
  }

  /** One session after another, until one row is missing to the limit; then the race. */
  function Overrun(n: nat, owner: string): seq<Event> {
    if n == 0 then Racing(0, 1, owner)
    else [Start(0, owner, true)] + ([Count(0)] + ([Insert(0)] + ([Commit(0)] + Overrun(n - 1, owner))))
  }

  lemma {:induction false} OverrunExceeds(w: World, n: nat, key: Key, limit: nat, owner: string)
    requires (forall r :: r in w.rows ==> r < w.nextId) && w.sessions == map[] && Owned(w.rows, owner) + n + 1 == limit
    ensures Run(w, Overrun(n, owner), key, limit, false, owner)
    ensures Owned(After(w, Overrun(n, owner), key, limit, false, owner).rows, owner) == limit + 1
    decreases n
  {
    if n == 0 {
      Race(w, key, limit, owner, 0, 1);
    } else {
      var owned, rest := Owned(w.rows, owner), Overrun(n - 1, owner);
      var w1 := Begun(w, 0, owner, Waiting);
      var w2 := Begun(w1, 0, owner, Counted(owned));
      var w3 := Begun(w2, 0, owner, Inserted(owned));
      var w4 := Step(w3, Commit(0), key, limit, false);
      OwnedAfterInsert(w.rows, w.nextId, owner, owner);
      assert w4.sessions == map[];
      OverrunExceeds(w4, n - 1, key, limit, owner);
      OneMoreEvent(w3, Commit(0), rest, key, limit, false, owner);
      OneMoreEvent(w2, Insert(0), [Commit(0)] + rest, key, limit, false, owner);
      OneMoreEvent(w1, Count(0), [Insert(0)] + ([Commit(0)] + rest), key, limit, false, owner);
      var counting := [Count(0)] + ([Insert(0)] + ([Commit(0)] + rest));
      OneMoreEvent(w, Start(0, owner, true), counting, key, limit, false, owner);
    }
  }

  /** With a limit of zero nobody gets as far as inserting. */
  ghost predicate Barred(w: World, owner: string) {
    && Owned(w.rows, owner) == 0
    && (forall s :: s in w.sessions && w.sessions[s].owner == owner ==>
         w.sessions[s].enforce && !w.sessions[s].phase.Inserted?)
  }

  lemma BarredStep(w: World, e: Event, key: Key, locking: bool, owner: string)
    requires Barred(w, owner) && Enabled(w, e, key, 0, locking) && Enforced(e, owner)
    ensures Barred(Step(w, e, key, 0, locking), owner)
  {
    match e
    case Commit(s) =>
      assert w.sessions[s].owner != owner;
      var next := w.rows[w.nextId := w.sessions[s].owner];
      assert forall r :: r in next && next[r] == owner ==> r in w.rows && w.rows[r] == owner;
      NoneOwned(w.rows, next, owner);
    case Delete(row) => OwnedAfterDelete(w.rows, row, owner);
    case _ =>
  }

  lemma NoneOwned(rows: Rows, next: Rows, owner: string)
    requires Owned(rows, owner) == 0 && forall r :: r in next && next[r] == owner ==> r in rows && rows[r] == owner
    ensures Owned(next, owner) == 0
  {
    var before, after := set r | r in rows && rows[r] == owner, set r | r in next && next[r] == owner;
    assert before == {};
    forall r: int | r in next ensures next[r] != owner { assert r !in before; }
    assert after == {};
  }

  lemma {:induction false} BarredRun(w: World, events: seq<Event>, key: Key, locking: bool, owner: string)
    requires Barred(w, owner) && Run(w, events, key, 0, locking, owner)
    ensures Owned(After(w, events, key, 0, locking, owner).rows, owner) == 0
    decreases |events|
  {
    if events != [] {
      BarredStep(w, events[0], key, locking, owner);
      BarredRun(Step(w, events[0], key, 0, locking), events[1..], key, locking, owner);
    }
  }

  ghost predicate Exceeds(events: seq<Event>, key: Key, limit: nat, locking: bool, owner: string) {
    && Run(START, events, key, limit, locking, owner)
    && Owned(After(START, events, key, limit, locking, owner).rows, owner) > limit
  }

  /** Why the count is taken under the lock: the limit can be exceeded exactly when counting does not wait for it
      and the limit admits anything at all. */
  lemma StaleCountsExceed(key: Key, limit: nat, locking: bool, owner: string)
    ensures (exists events :: Exceeds(events, key, limit, locking, owner)) <==> !locking && limit > 0
  {
    EmptyHolds(key, limit, owner);
    if !locking && limit > 0 {
      assert Owned(START.rows, owner) == 0 by { EmptyHolds(key, 0, owner); }
      OverrunExceeds(START, limit - 1, key, limit, owner);
      assert Exceeds(Overrun(limit - 1, owner), key, limit, locking, owner);
    } else if exists events :: Exceeds(events, key, limit, locking, owner) {
      var events :| Exceeds(events, key, limit, locking, owner);
      if locking {
        QuotaHolds(START, events, key, limit, owner);
      } else {
        BarredRun(START, events, key, locking, owner);
      }
    }
  }
}
