/** The Access trunk: persistent list and live membership, applied under a rollback and planned from observations. */
module AccessTrunk {
  import opened Base
  import opened Slots
  import opened Strings
  import opened TrunkText

  // ---- canonical lists and differences --------------------------------------------------------------

  function CanonicalList(s: seq<int>): seq<int> { Sorted(Deduplicate(s)) }

  ghost predicate IsCanonical(s: seq<int>) { Distinct(s) && SortedBy(Identity, s) }

  function Elements(s: seq<int>): set<int> { set v | v in s }

  function Minus(a: seq<int>, b: seq<int>): seq<int> {
    if a == [] then []
    else (if a[0] in b then [] else [a[0]]) + Minus(a[1..], b)
  }

  lemma CanonicalKeeps(s: seq<int>)
    ensures IsCanonical(CanonicalList(s)) && Elements(CanonicalList(s)) == Elements(s)
  {
    DeduplicateKeeps(s);
    SortByKeeps(Identity, Deduplicate(s));
    DistinctMultiset(Deduplicate(s));
    DistinctMultiset(CanonicalList(s));
    forall v ensures v in Elements(CanonicalList(s)) <==> v in Elements(s) {
      assert v in CanonicalList(s) <==> v in s;
    }
  }

  /** A canonical list is determined by its elements. */
  lemma CanonicalUnique(a: seq<int>, b: seq<int>)
    requires IsCanonical(a) && IsCanonical(b) && Elements(a) == Elements(b)
    ensures a == b
  {
    forall v ensures v in a <==> v in b { assert v in Elements(a) <==> v in Elements(b); }
    SameElements(a, b);
    SortedUnique(Identity, a, b);
  }

  lemma {:induction false} MinusElements(a: seq<int>, b: seq<int>)
    ensures forall v :: v in Minus(a, b) <==> v in a && v !in b
  {
    if a != [] {
      MinusElements(a[1..], b);
      assert a == [a[0]] + a[1..];
    }
  }

  lemma {:induction false} MinusCanonical(a: seq<int>, b: seq<int>)
    requires IsCanonical(a)
    ensures IsCanonical(Minus(a, b))
  {
    if a != [] {
      var rest := a[1..];
      MinusCanonical(rest, b);
      MinusElements(rest, b);
      forall v: int | v in Minus(rest, b) ensures a[0] < v { BehindFirst(a, v); }
      ConsCanonical(a[0], Minus(rest, b));
    }
  }

  lemma BehindFirst(a: seq<int>, v: int)
    requires IsCanonical(a) && a != [] && v in a[1..]
    ensures a[0] < v
  {
    var k :| 0 < k < |a| && a[k] == v;
  }

  lemma ConsCanonical(first: int, rest: seq<int>)
    requires IsCanonical(rest) && forall v: int :: v in rest ==> first < v
    ensures IsCanonical([first] + rest)
  {
    var all := [first] + rest;
    forall i, j | 0 <= i < j < |all| ensures all[i] < all[j] {
      assert all[j] == rest[j - 1] && rest[j - 1] in rest;
      if i > 0 { assert all[i] == rest[i - 1]; }
    }
  }

  lemma Member<T>(s: set<T>) returns (x: T)
    requires s != {}
    ensures x in s
  {
    x :| x in s;
  }

  function Least(s: set<int>): (least: int)
    requires s != {}
    ensures least in s && forall v :: v in s ==> least <= v
  {
    LeastExists(s);
    var least :| least in s && forall v :: v in s ==> least <= v;
    least
  }

  lemma {:induction false} LeastExists(s: set<int>)
    requires s != {}
    ensures exists least :: least in s && forall v :: v in s ==> least <= v
  {
    var some := Member(s);
    if s == {some} {
      assert some in s && forall v :: v in s ==> some <= v;
    } else {
      LeastExists(s - {some});
      var other :| other in s - {some} && forall v :: v in s - {some} ==> other <= v;
      var least := if some < other then some else other;
      forall v | v in s ensures least <= v {
        if v != some { assert v in s - {some}; }
      }
      assert least in s && forall v :: v in s ==> least <= v;
    }
  }

  /** Membership as the observation reports it: sorted, each VLAN once. */
  function Listed(live: set<int>): (r: seq<int>)
    ensures IsCanonical(r) && Elements(r) == live
  {
    if live == {} then []
    else
      LeastFirst(Least(live), Listed(live - {Least(live)}), live);
      [Least(live)] + Listed(live - {Least(live)})
  }

  lemma LeastFirst(least: int, rest: seq<int>, live: set<int>)
    requires least in live && IsCanonical(rest) && Elements(rest) == live - {least}
    requires forall v :: v in live ==> least <= v
    ensures IsCanonical([least] + rest) && Elements([least] + rest) == live
  {
    var all := [least] + rest;
    assert forall v :: v in rest <==> v in Elements(rest);
    forall v ensures v in Elements(all) <==> v in live {
      assert v in all <==> v == least || v in rest;
    }
    forall i, j | 0 <= i < j < |all| ensures all[i] < all[j] {
      assert all[j] == rest[j - 1] && rest[j - 1] in rest;
      if i > 0 { assert all[i] == rest[i - 1] && rest[i - 1] in rest; }
    }
  }

  // ---- the host ----------------------------------------------------------------------------------------

  datatype Write = SetNet1(text: string) | Join(vlan: int) | Leave(vlan: int)

  datatype Trunk = Trunk(net1: string, live: set<int>)

  /** Setting the persistent string leaves live membership alone, and the other way round. */
  function Apply(t: Trunk, w: Write): Trunk {
    match w
    case SetNet1(text) => t.(net1 := text)
    case Join(v) => t.(live := t.live + {v})
    case Leave(v) => t.(live := t.live - {v})
  }

  function ApplyAll(t: Trunk, ws: seq<Write>): Trunk
    decreases |ws|
  {
    if ws == [] then t else ApplyAll(Apply(t, ws[0]), ws[1..])
  }

  function Joins(vlans: seq<int>): (r: seq<Write>)
    ensures |r| == |vlans| && forall k :: 0 <= k < |vlans| ==> r[k] == Join(vlans[k])
  {
    seq(|vlans|, k requires 0 <= k < |vlans| => Join(vlans[k]))
  }

  function Leaves(vlans: seq<int>): (r: seq<Write>)
    ensures |r| == |vlans| && forall k :: 0 <= k < |vlans| ==> r[k] == Leave(vlans[k])
  {
    seq(|vlans|, k requires 0 <= k < |vlans| => Leave(vlans[k]))
  }

  /** Persistent half first: rewriting it may discard freshly added live VLANs. */
  function ApplyWrites(net1: string, live: seq<int>, desired: seq<nat>): seq<Write> {
    var after := WithTrunks(net1, desired);
    (if after != net1 then [SetNet1(after)] else []) + Joins(Minus(desired, live)) + Leaves(Minus(live, desired))
  }

  /** The armed script: the old string verbatim, then the live difference undone. */
  function UndoScript(net1: string, live: seq<int>, desired: seq<nat>): seq<Write> {
    [SetNet1(net1)] + Leaves(Sorted(Minus(desired, live))) + Joins(Sorted(Minus(live, desired)))
  }

  /** The writes from `from` on were made, up to some point: from the start, or from where the timer put everything
      back. */
  ghost predicate PartWay(before: Trunk, now: Trunk, live: seq<int>, desired: seq<nat>) {
    var ws := ApplyWrites(before.net1, live, desired);
    exists from, to :: 0 <= from <= to <= |ws| && now == ApplyAll(before, ws[from..to])
  }

  datatype Transaction = Transaction(id: string, desired: seq<nat>, net1Before: string, liveBefore: seq<int>)

  datatype Request = Request(desired: seq<nat>, expectedNet1: Option<string>, rollbackSeconds: int, id: string)

  /** `Refused` changes nothing, `Interrupted` died after the timer was armed. */
  datatype ApplyReply =
    | Refused
    | Interrupted
    | Done(converged: bool, armed: bool, changed: bool, added: seq<int>, removed: seq<int>)

  /** The timer elapsing behind the first `at` writes of an apply that still runs; `fails` when rewriting the string
      fails, which ends the script at its first line. */
  datatype Firing = Firing(at: nat, fails: bool)

  function Made(net1: string, live: seq<int>, desired: seq<nat>, writes: nat): nat {
    var n := |ApplyWrites(net1, live, desired)|;
    if writes < n then writes else n
  }

  predicate InTime(fire: Option<Firing>, made: nat) { fire.Some? && fire.value.at <= made }

  /** Where the writes that last begin: behind the firing, if it took everything back. */
  function Since(fire: Option<Firing>, made: nat): (from: nat)
    ensures from <= made
  {
    if InTime(fire, made) && !fire.value.fails then fire.value.at else 0
  }

  // ---- what the commands leave behind -------------------------------------------------------------------

  datatype Host = Host(
    trunk: Trunk, vethPresent: bool, script: seq<Write>, timer: bool, transaction: Option<Transaction>)

  /** Without the interface the live half is observed as empty; a string that cannot be read ends the observation. */
  predicate BothHold(h: Host, desired: seq<nat>) {
    ParseTrunks(h.trunk.net1) == Some(desired) && Listed(if h.vethPresent then h.trunk.live else {}) == desired
  }

  /** Reading the existing string is part of the first observation, so one that does not parse ends the command
      there. */
  predicate Refuses(h: Host, r: Request) {
    || r.desired == [] || (exists k :: 0 <= k < |r.desired| && !(2 <= r.desired[k] <= 4094))
    || (r.expectedNet1.Some? && r.expectedNet1.value != h.trunk.net1)
    || ParseTrunks(h.trunk.net1).None? || !h.vethPresent
    || (h.transaction.Some? && h.timer)
    || !(60 <= r.rollbackSeconds <= 1800)
  }

  function WritesOf(h: Host, r: Request): seq<Write> {
    ApplyWrites(h.trunk.net1, Listed(h.trunk.live), CanonicalNats(r.desired))
  }

  function Scripted(h: Host, r: Request): Host {
    h.(script := UndoScript(h.trunk.net1, Listed(h.trunk.live), CanonicalNats(r.desired)))
  }

  /** The timer is armed, the writes are made as far as they succeed, and the last of all is the record. */
  function AfterWrites(h: Host, r: Request, writes: nat, fire: Option<Firing>): Host {
    var live, desired := Listed(h.trunk.live), CanonicalNats(r.desired);
    var ws, made := WritesOf(h, r), Made(h.trunk.net1, live, desired, writes);
    h.(trunk := ApplyAll(h.trunk, ws[Since(fire, made)..made]), timer := !InTime(fire, made),
       transaction := if writes > |ws| then Some(Transaction(r.id, desired, h.trunk.net1, live))
                      else if InTime(fire, made) && !fire.value.fails then None else h.transaction)
  }

  /** The unit name of a timer that is still armed is refused, which ends the command with the script rewritten. */
  function AfterApply(h: Host, r: Request, writes: nat, fire: Option<Firing>): Host {
    if Refuses(h, r) then h else if h.timer then Scripted(h, r) else AfterWrites(Scripted(h, r), r, writes, fire)
  }

  function AfterFiring(h: Host, fails: bool): Host {
    if !h.timer then h
    else if fails then h.(timer := false)
    else h.(trunk := ApplyAll(h.trunk, h.script), timer := false, transaction := None)
  }

  predicate Commits(h: Host, id: string) {
    h.transaction.Some? && h.transaction.value.id == id && BothHold(h, h.transaction.value.desired)
  }

  function AfterCommit(h: Host, id: string, stops: bool): Host {
    if Commits(h, id) then h.(timer := h.timer && !stops, transaction := None) else h
  }

  /** An empty name is none. */
  predicate RollsBack(h: Host, requested: Option<string>, fails: bool) {
    && h.transaction.Some? && !fails
    && (requested.Some? && requested.value != "" ==> requested.value == h.transaction.value.id)
  }

  function AfterRollback(h: Host, requested: Option<string>, fails: bool, stops: bool): Host {
    if RollsBack(h, requested, fails) then
      h.(trunk := ApplyAll(h.trunk, h.script), timer := h.timer && !stops, transaction := None)
    else h
  }

  class TrunkHost {
    var trunk: Trunk
    var vethPresent: bool
    var script: seq<Write>
    var timer: bool
    var transaction: Option<Transaction>

    function Snapshot(): Host reads this { Host(trunk, vethPresent, script, timer, transaction) }

    method PerformAll(ws: seq<Write>)
      modifies this`trunk
      ensures trunk == ApplyAll(old(trunk), ws)
    {
      assert ws[0..] == ws;
      for k := 0 to |ws|
        invariant ApplyAll(trunk, ws[k..]) == ApplyAll(old(trunk), ws)
      {
        assert ws[k..][0] == ws[k] && ws[k..][1..] == ws[k + 1..];
        trunk := Apply(trunk, ws[k]);
      }
    }

    /** `writes` is how many of the writes succeed before the command dies. */
    method Reconcile(desired: seq<nat>, live: seq<int>, made: nat, fire: Option<Firing>)
      requires !timer && Elements(live) == trunk.live && script == UndoScript(trunk.net1, live, desired)
      requires made <= |ApplyWrites(trunk.net1, live, desired)|
      modifies this`trunk, this`timer, this`transaction
      ensures trunk == ApplyAll(old(trunk), ApplyWrites(old(trunk).net1, live, desired)[Since(fire, made)..made])
      ensures timer <==> !InTime(fire, made)
      ensures transaction == if InTime(fire, made) && !fire.value.fails then None else old(transaction)
    {
      var ws := ApplyWrites(trunk.net1, live, desired);
      timer := true;
      if !InTime(fire, made) {
        PerformAll(ws[..made]);
        assert ws[0..made] == ws[..made];
        return;
      }
      RunThrough(trunk, live, desired, made, fire.value);
    }

    /** The writes with the timer elapsing among them. */
    method RunThrough(ghost before: Trunk, live: seq<int>, desired: seq<nat>, made: nat, fire: Firing)
      requires timer && trunk == before && Elements(live) == before.live
      requires script == UndoScript(before.net1, live, desired)
      requires fire.at <= made <= |ApplyWrites(before.net1, live, desired)|
      modifies this`trunk, this`timer, this`transaction
      ensures !timer && transaction == if fire.fails then old(transaction) else None
      ensures trunk ==
        ApplyAll(before, ApplyWrites(before.net1, live, desired)[if fire.fails then 0 else fire.at..made])
    {
      var ws := ApplyWrites(trunk.net1, live, desired);
      ThroughFiring(trunk, live, desired, fire.at, made);
      PerformAll(ws[..fire.at]);
      TimerElapses(fire.fails);
      PerformAll(ws[fire.at..made]);
    }

    method OperationApply(r: Request, writes: nat, fire: Option<Firing>) returns (reply: ApplyReply)
      modifies this`trunk, this`script, this`timer, this`transaction
      ensures Snapshot() == AfterApply(old(Snapshot()), r, writes, fire)
      ensures reply == Refused <==>
        || |r.desired| == 0 || (exists v :: v in r.desired && (v < 2 || v > 4094))
        || (r.expectedNet1.Some? && r.expectedNet1.value != old(trunk.net1))
        || ParseTrunks(old(trunk.net1)).None? || !old(vethPresent)
        || (old(transaction.Some?) && old(timer)) || r.rollbackSeconds < 60 || r.rollbackSeconds > 1800
      ensures reply == Refused ==> Snapshot() == old(Snapshot())
      ensures reply.Done? <==> reply != Refused && !old(timer) && writes > |WritesOf(old(Snapshot()), r)|
      ensures reply.Done? ==> Answered(old(Snapshot()), Snapshot(), r, reply)
      ensures reply.Done? ==>
        transaction == Some(Transaction(r.id, CanonicalNats(r.desired), old(trunk.net1), Listed(old(trunk.live))))
    {
      TagsExactly(r.desired);
      if Refuses(Snapshot(), r) {
        return Refused;
      }
      script := Scripted(Snapshot(), r).script;
      if timer {
        return Interrupted;
      }
      reply := Proceed(Snapshot(), r, writes, fire);
    }

    /** From the written script on. */
    method Proceed(ghost h: Host, r: Request, writes: nat, fire: Option<Firing>) returns (reply: ApplyReply)
      requires h == Snapshot() == Scripted(h, r) && !timer && vethPresent && r.desired != []
      modifies this`trunk, this`timer, this`transaction
      ensures Snapshot() == AfterWrites(h, r, writes, fire)
      ensures reply == Interrupted || (reply.Done? && Answered(h, Snapshot(), r, reply))
      ensures reply.Done? <==> writes > |WritesOf(h, r)|
      ensures reply.Done? ==>
        transaction == Some(Transaction(r.id, CanonicalNats(r.desired), h.trunk.net1, Listed(h.trunk.live)))
    {
      var desired, net1, live := CanonicalNats(r.desired), trunk.net1, Listed(trunk.live);
      Reconcile(desired, live, Made(net1, live, desired, writes), fire);
      if writes <= |ApplyWrites(net1, live, desired)| {
        return Interrupted;
      }
      reply := Answer(h, r, net1, live, writes, fire);
    }

    /** Records the transaction and reports what was found at the end. */
    method Answer(ghost h: Host, r: Request, net1: string, live: seq<int>, ghost writes: nat,
                  ghost fire: Option<Firing>)
      returns (reply: ApplyReply)
      requires r.desired != [] && net1 == h.trunk.net1 && live == Listed(h.trunk.live) && writes > |WritesOf(h, r)|
      requires h.vethPresent && Snapshot() == AfterWrites(h, r, writes, fire).(transaction := transaction)
      modifies this`transaction
      ensures Snapshot() == AfterWrites(h, r, writes, fire) && Answered(h, Snapshot(), r, reply)
      ensures transaction == Some(Transaction(r.id, CanonicalNats(r.desired), net1, live))
    {
      var desired := CanonicalNats(r.desired);
      FinishedAnswer(h, r, writes, fire);
      transaction := Some(Transaction(r.id, desired, net1, live));
      var converged := BothHold(Snapshot(), desired);
      reply := Done(converged, timer, WithTrunks(net1, desired) != net1, Minus(desired, live), Minus(live, desired));
    }

    /** Running the armed script under `set -e`: a failing rewrite of the string ends it before anything moved. */
    method RunRollbackScript(fails: bool) returns (ok: bool)
      modifies this`trunk, this`transaction
      ensures ok == !fails
      ensures trunk == if ok then ApplyAll(old(trunk), script) else old(trunk)
      ensures transaction == if ok then None else old(transaction)
    {
      ok := !fails;
      if ok {
        PerformAll(script);
        transaction := None;
      }
    }

    method TimerElapses(fails: bool)
      modifies this`trunk, this`transaction, this`timer
      ensures Snapshot() == AfterFiring(old(Snapshot()), fails)
    {
      if timer {
        var _ := RunRollbackScript(fails);
        timer := false;
      }
    }

    /** A rollback that was asked for runs the same script at once. One that names another transaction is refused, and
        a failing script leaves the timer to try again. */
    method OperationRollback(requested: Option<string>, fails: bool, stops: bool) returns (done: bool)
      modifies this`trunk, this`timer, this`transaction
      ensures Snapshot() == AfterRollback(old(Snapshot()), requested, fails, stops)
      ensures done <==>
        && old(transaction.Some?) && !fails
        && (requested.None? || requested.value == "" || requested.value == old(transaction).value.id)
      ensures done ==> trunk == ApplyAll(old(trunk), script) && transaction.None? && (stops ==> !timer)
      ensures !done ==> Snapshot() == old(Snapshot())
    {
      done :=
        transaction.Some? && (requested.Some? && requested.value != "" ==> requested.value == transaction.value.id);
      if done {
        done := RunRollbackScript(fails);
        timer := timer && !(done && stops);
      }
    }

    /** Stopping the timer is tried, and what came of it reported. */
    method OperationCommit(id: string, stops: bool) returns (committed: bool, armed: bool)
      modifies this`timer, this`transaction
      ensures Snapshot() == AfterCommit(old(Snapshot()), id, stops)
      ensures committed <==>
        && old(transaction.Some?) && old(transaction).value.id == id
        && ParseTrunks(trunk.net1) == Some(old(transaction).value.desired)
        && Listed(if vethPresent then trunk.live else {}) == old(transaction).value.desired
      ensures committed ==> transaction.None? && (stops ==> !timer) && (!stops ==> timer == old(timer))
      ensures armed == timer && (!committed ==> Snapshot() == old(Snapshot()))
    {
      committed := Commits(Snapshot(), id);
      if committed {
        timer, transaction := timer && !stops, None;
      }
      armed := timer;
    }
  }

  /** What a finished apply reported: the announced changes are the differences, and while the timer is still armed
      both halves hold the wanted list. */
  ghost predicate Answered(before: Host, after: Host, r: Request, reply: ApplyReply) {
    var desired := CanonicalNats(r.desired);
    && reply.Done? && reply.armed == after.timer && reply.converged == BothHold(after, desired)
    && reply.changed == (WithTrunks(before.trunk.net1, desired) != before.trunk.net1)
    && IsCanonical(reply.added) && Elements(reply.added) == Elements(r.desired) - before.trunk.live
    && IsCanonical(reply.removed) && Elements(reply.removed) == before.trunk.live - Elements(r.desired)
    && (after.timer ==> reply.converged && after.trunk.live == Elements(r.desired))
  }

  lemma TagsExactly(tags: seq<nat>)
    ensures (exists k :: 0 <= k < |tags| && !(2 <= tags[k] <= 4094)) <==> exists v :: v in tags && (v < 2 || v > 4094)
  {
    if exists k :: 0 <= k < |tags| && !(2 <= tags[k] <= 4094) {
      var k :| 0 <= k < |tags| && !(2 <= tags[k] <= 4094);
      assert tags[k] in tags;
    }
  }

  lemma FinishedAnswer(h: Host, r: Request, writes: nat, fire: Option<Firing>)
    requires r.desired != [] && h.vethPresent && writes > |WritesOf(h, r)|
    ensures var live, desired := Listed(h.trunk.live), CanonicalNats(r.desired);
      && IsCanonical(Minus(desired, live)) && Elements(Minus(desired, live)) == Elements(r.desired) - h.trunk.live
      && IsCanonical(Minus(live, desired)) && Elements(Minus(live, desired)) == h.trunk.live - Elements(r.desired)
    ensures var after := AfterWrites(h, r, writes, fire);
      after.timer ==> BothHold(after, CanonicalNats(r.desired)) && after.trunk.live == Elements(r.desired)
  {
    var live, desired, ws := Listed(h.trunk.live), CanonicalNats(r.desired), WritesOf(h, r);
    CanonicalKeeps(r.desired);
    AnnouncedChanges(live, desired);
    MinusCanonical(desired, live);
    MinusCanonical(live, desired);
    if AfterWrites(h, r, writes, fire).timer {
      assert ws[0..|ws|] == ws;
      DesiredReached(h.trunk, r.desired);
    }
  }

  lemma DesiredReached(t: Trunk, wanted: seq<nat>)
    requires wanted != []
    ensures var desired := CanonicalNats(wanted);
      var after := ApplyAll(t, ApplyWrites(t.net1, Listed(t.live), desired));
      && ParseTrunks(after.net1) == Some(desired) && after.live == Elements(wanted) && Listed(after.live) == desired
  {
    var live, desired := Listed(t.live), CanonicalNats(wanted);
    CanonicalKeeps(wanted);
    DesiredNonEmpty(wanted);
    ApplyReachesDesired(t, live, desired);
    CanonicalUnique(Listed(ApplyAll(t, ApplyWrites(t.net1, live, desired)).live), desired);
  }

  lemma AnnouncedChanges(live: seq<int>, desired: seq<nat>)
    ensures Elements(Minus(desired, live)) == Elements(desired) - Elements(live)
    ensures Elements(Minus(live, desired)) == Elements(live) - Elements(desired)
  {
    MinusElements(desired, live);
    MinusElements(live, desired);
    forall v ensures v in Elements(Minus(desired, live)) <==> v in Elements(desired) - Elements(live) {
      assert v in Elements(desired) <==> v in desired;
      assert v in Elements(Minus(desired, live)) <==> v in Minus(desired, live);
    }
    forall v ensures v in Elements(Minus(live, desired)) <==> v in Elements(live) - Elements(desired) {
      assert v in Elements(desired) <==> v in desired;
      assert v in Elements(Minus(live, desired)) <==> v in Minus(live, desired);
    }
  }

  function CanonicalNats(s: seq<nat>): (r: seq<nat>) {
    var list := CanonicalList(s);
    CanonicalKeeps(s);
    assert forall v :: v in list ==> v in Elements(list);
    assert forall v :: v in list ==> v in s;
    assert forall k :: 0 <= k < |list| ==> list[k] in list && list[k] in s;
    list
  }

  lemma DesiredNonEmpty(s: seq<nat>)
    requires s != []
    ensures CanonicalNats(s) != []
  {
    CanonicalKeeps(s);
    assert s[0] in Elements(s);
    assert s[0] in Elements(CanonicalList(s));
  }

  // ---- what a sequence of writes does --------------------------------------------------------------------

  lemma {:induction false} ApplyConcat(t: Trunk, a: seq<Write>, b: seq<Write>)
    ensures ApplyAll(t, a + b) == ApplyAll(ApplyAll(t, a), b)
    decreases |a|
  {
    if a == [] {
      assert a + b == b;
    } else {
      assert (a + b)[1..] == a[1..] + b;
      ApplyConcat(Apply(t, a[0]), a[1..], b);
    }
  }

  lemma {:induction false} ApplyJoins(t: Trunk, vlans: seq<int>)
    ensures ApplyAll(t, Joins(vlans)) == t.(live := t.live + Elements(vlans))
    decreases |vlans|
  {
    if vlans == [] {
      assert Elements(vlans) == {};
    } else {
      assert Joins(vlans)[1..] == Joins(vlans[1..]);
      ApplyJoins(Apply(t, Join(vlans[0])), vlans[1..]);
      assert vlans == [vlans[0]] + vlans[1..];
      assert Elements(vlans) == {vlans[0]} + Elements(vlans[1..]);
      assert t.live + {vlans[0]} + Elements(vlans[1..]) == t.live + Elements(vlans);
    }
  }

  lemma {:induction false} ApplyLeaves(t: Trunk, vlans: seq<int>)
    ensures ApplyAll(t, Leaves(vlans)) == t.(live := t.live - Elements(vlans))
    decreases |vlans|
  {
    if vlans == [] {
      assert Elements(vlans) == {};
    } else {
      assert Leaves(vlans)[1..] == Leaves(vlans[1..]);
      ApplyLeaves(Apply(t, Leave(vlans[0])), vlans[1..]);
      assert vlans == [vlans[0]] + vlans[1..];
      assert Elements(vlans) == {vlans[0]} + Elements(vlans[1..]);
      assert t.live - {vlans[0]} - Elements(vlans[1..]) == t.live - Elements(vlans);
    }
  }

  lemma WritesEffect(t: Trunk, live: seq<int>, desired: seq<nat>)
    ensures ApplyAll(t, ApplyWrites(t.net1, live, desired)) ==
      Trunk(WithTrunks(t.net1, desired), t.live + Elements(Minus(desired, live)) - Elements(Minus(live, desired)))
  {
    var text := WithTrunks(t.net1, desired);
    var first := if text != t.net1 then [SetNet1(text)] else [];
    var joins, leaves := Joins(Minus(desired, live)), Leaves(Minus(live, desired));
    ApplyConcat(t, first + joins, leaves);
    ApplyConcat(t, first, joins);
    var start := t.(net1 := text);
    assert ApplyAll(t, first) == start;
    ApplyJoins(start, Minus(desired, live));
    ApplyLeaves(start.(live := start.live + Elements(Minus(desired, live))), Minus(live, desired));
  }

  lemma {:induction false} SortedAlready(s: seq<int>)
    requires IsCanonical(s)
    ensures Sorted(s) == s
  {
    SortByKeeps(Identity, s);
    assert KeysDistinct(Identity, s);
    SortedUnique(Identity, s, Sorted(s));
  }

  /** Without a failure both halves end equal to the desired list, and no other field of the string moves. */
  lemma ApplyReachesDesired(t: Trunk, live: seq<int>, desired: seq<nat>)
    requires desired != [] && IsCanonical(desired) && Elements(live) == t.live
    ensures var after := ApplyAll(t, ApplyWrites(t.net1, live, desired));
      && ParseTrunks(after.net1) == Some(desired) && after.live == Elements(desired)
      && OtherFields(after.net1) == OtherFields(t.net1)
  {
    WritesEffect(t, live, desired);
    MinusElements(desired, live);
    MinusElements(live, desired);
    var after := t.live + Elements(Minus(desired, live)) - Elements(Minus(live, desired));
    forall v ensures v in after <==> v in Elements(desired) {
      assert v in t.live <==> v in live;
      assert v in Elements(desired) <==> v in desired;
      assert v in Elements(Minus(desired, live)) <==> v in Minus(desired, live);
    }
    assert after == Elements(desired);
    TrunksRoundTrip(t.net1, desired);
    SortedAlready(desired);
  }

  /** How far any of the writes can have moved the trunk. */
  ghost predicate Between(t: Trunk, now: Trunk, live: seq<int>, desired: seq<nat>) {
    && t.live - Elements(Minus(live, desired)) <= now.live
    && now.live <= t.live + Elements(Minus(desired, live))
  }

  predicate Wanted(w: Write, live: seq<int>, desired: seq<nat>) {
    match w
    case SetNet1(_) => true
    case Join(v) => v in Minus(desired, live)
    case Leave(v) => v in Minus(live, desired)
  }

  predicate AllWanted(ws: seq<Write>, live: seq<int>, desired: seq<nat>) {
    forall k :: 0 <= k < |ws| ==> Wanted(ws[k], live, desired)
  }

  lemma SliceWanted(ws: seq<Write>, from: nat, to: nat, live: seq<int>, desired: seq<nat>)
    requires AllWanted(ws, live, desired) && from <= to <= |ws|
    ensures AllWanted(ws[from..to], live, desired)
  {
    forall k | 0 <= k < to - from ensures Wanted(ws[from..to][k], live, desired) {
      assert ws[from..to][k] == ws[from + k];
    }
  }

  lemma WritesWanted(net1: string, live: seq<int>, desired: seq<nat>)
    ensures AllWanted(ApplyWrites(net1, live, desired), live, desired)
  {
    var ws, add, remove := ApplyWrites(net1, live, desired), Minus(desired, live), Minus(live, desired);
    var n := |ws| - |add| - |remove|;
    forall k | 0 <= k < |ws| ensures Wanted(ws[k], live, desired) {
      if n <= k < n + |add| {
        assert ws[k] == Join(add[k - n]);
      } else if n + |add| <= k {
        assert ws[k] == Leave(remove[k - n - |add|]);
      }
    }
  }

  lemma {:induction false} SliceBetween(t: Trunk, now: Trunk, ws: seq<Write>, live: seq<int>, desired: seq<nat>)
    requires Between(t, now, live, desired) && AllWanted(ws, live, desired)
    ensures Between(t, ApplyAll(now, ws), live, desired)
    decreases |ws|
  {
    if ws != [] {
      MinusElements(desired, live);
      MinusElements(live, desired);
      SliceWanted(ws, 1, |ws|, live, desired);
      SliceBetween(t, Apply(now, ws[0]), ws[1..], live, desired);
    }
  }

  lemma UndoEffect(t: Trunk, net1: string, live: seq<int>, desired: seq<nat>)
    ensures ApplyAll(t, UndoScript(net1, live, desired)) ==
      Trunk(net1, t.live - Elements(Minus(desired, live)) + Elements(Minus(live, desired)))
  {
    var add, remove := Minus(desired, live), Minus(live, desired);
    var leaves, joins := Leaves(Sorted(add)), Joins(Sorted(remove));
    SortByKeeps(Identity, add);
    SortByKeeps(Identity, remove);
    assert Elements(Sorted(add)) == Elements(add) && Elements(Sorted(remove)) == Elements(remove);
    ApplyConcat(t, [SetNet1(net1)] + leaves, joins);
    ApplyConcat(t, [SetNet1(net1)], leaves);
    var start := t.(net1 := net1);
    assert ApplyAll(t, [SetNet1(net1)]) == start;
    ApplyLeaves(start, Sorted(add));
    ApplyJoins(start.(live := start.live - Elements(add)), Sorted(remove));
  }

  lemma UndoSet(before: set<int>, now: set<int>, add: set<int>, remove: set<int>)
    requires add !! before && remove <= before && before - remove <= now <= before + add
    ensures now - add + remove == before
  { }

  lemma UndoFrom(t: Trunk, now: Trunk, live: seq<int>, desired: seq<nat>)
    requires Elements(live) == t.live && Between(t, now, live, desired)
    ensures ApplyAll(now, UndoScript(t.net1, live, desired)) == t
  {
    var add, remove := Elements(Minus(desired, live)), Elements(Minus(live, desired));
    UndoEffect(now, t.net1, live, desired);
    AnnouncedChanges(live, desired);
    UndoSet(t.live, now.live, add, remove);
  }

  lemma PartBetween(t: Trunk, now: Trunk, live: seq<int>, desired: seq<nat>)
    requires PartWay(t, now, live, desired)
    ensures Between(t, now, live, desired)
  {
    var ws := ApplyWrites(t.net1, live, desired);
    var from, to :| 0 <= from <= to <= |ws| && now == ApplyAll(t, ws[from..to]);
    WritesWanted(t.net1, live, desired);
    SliceWanted(ws, from, to, live, desired);
    SliceBetween(t, t, ws[from..to], live, desired);
  }

  /** From wherever an apply died, and wherever its timer elapsed meanwhile, the script gives back the string
      verbatim and the exact live set; running it again changes nothing more. */
  lemma RollbackRestores(t: Trunk, now: Trunk, live: seq<int>, desired: seq<nat>)
    requires Elements(live) == t.live && PartWay(t, now, live, desired)
    ensures ApplyAll(now, UndoScript(t.net1, live, desired)) == t
    ensures ApplyAll(t, UndoScript(t.net1, live, desired)) == t
  {
    PartBetween(t, now, live, desired);
    UndoFrom(t, now, live, desired);
    UndoFrom(t, t, live, desired);
  }

  /** A commit that could not stop its timer is undone when it elapses, exactly if the apply had changed anything. */
  lemma UnstoppedCommit(t: Trunk, live: seq<int>, desired: seq<nat>)
    requires Elements(live) == t.live
    ensures var committed := ApplyAll(t, ApplyWrites(t.net1, live, desired));
      ApplyAll(committed, UndoScript(t.net1, live, desired)) == committed <==> ApplyWrites(t.net1, live, desired) == []
  {
    var ws := ApplyWrites(t.net1, live, desired);
    assert ws[0..|ws|] == ws;
    RollbackRestores(t, ApplyAll(t, ws), live, desired);
    CaughtExactly(t, live, desired, 0, |ws|);
  }

  /** Writes, the script, and the remaining writes; or all the writes in a row when the script failed at its first
      line. */
  lemma ThroughFiring(t: Trunk, live: seq<int>, desired: seq<nat>, at: nat, made: nat)
    requires Elements(live) == t.live && at <= made <= |ApplyWrites(t.net1, live, desired)|
    ensures var ws := ApplyWrites(t.net1, live, desired);
      var now := ApplyAll(t, ws[..at]);
      && ApplyAll(now, UndoScript(t.net1, live, desired)) == t
      && ApplyAll(now, ws[at..made]) == ApplyAll(t, ws[0..made])
  {
    var ws := ApplyWrites(t.net1, live, desired);
    SlicesJoin(t, ws, at, made);
    RollbackRestores(t, ApplyAll(t, ws[..at]), live, desired) by {
      assert ws[0..at] == ws[..at];
    }
  }

  lemma SlicesJoin(t: Trunk, ws: seq<Write>, at: nat, made: nat)
    requires at <= made <= |ws|
    ensures ApplyAll(ApplyAll(t, ws[..at]), ws[at..made]) == ApplyAll(t, ws[0..made])
  {
    ApplyConcat(t, ws[..at], ws[at..made]);
    assert ws[..at] + ws[at..made] == ws[0..made];
  }

  // ---- an apply that outlives its own timer -----------------------------------------------------------

  /** The string is written once and no VLAN is both joined and left, so nothing takes a write back. */
  predicate Lasting(earlier: Write, later: Write) {
    && !later.SetNet1?
    && (earlier.Join? ==> later != Leave(earlier.vlan))
    && (earlier.Leave? ==> later != Join(earlier.vlan))
  }

  lemma WritesLast(net1: string, live: seq<int>, desired: seq<nat>)
    ensures var ws := ApplyWrites(net1, live, desired);
      forall i, j :: 0 <= i < j < |ws| ==> Lasting(ws[i], ws[j])
  {
    MinusElements(desired, live);
    MinusElements(live, desired);
    WritesWanted(net1, live, desired);
  }

  predicate Shows(w: Write, t: Trunk) {
    match w
    case SetNet1(text) => t.net1 == text
    case Join(v) => v in t.live
    case Leave(v) => v !in t.live
  }

  lemma {:induction false} LastingKept(t: Trunk, w: Write, ws: seq<Write>)
    requires forall k :: 0 <= k < |ws| ==> Lasting(w, ws[k])
    requires Shows(w, t)
    ensures Shows(w, ApplyAll(t, ws))
    decreases |ws|
  {
    if ws != [] {
      assert forall k :: 0 <= k < |ws[1..]| ==> ws[1..][k] == ws[k + 1];
      LastingKept(Apply(t, ws[0]), w, ws[1..]);
    }
  }

  /** A timer that elapses during the apply puts everything back; the writes made behind it all show, so the old
      trunk is there at the end exactly when none was. */
  lemma CaughtExactly(t: Trunk, live: seq<int>, desired: seq<nat>, from: nat, to: nat)
    requires Elements(live) == t.live && from <= to <= |ApplyWrites(t.net1, live, desired)|
    ensures ApplyAll(t, ApplyWrites(t.net1, live, desired)[from..to]) == t <==> from == to
  {
    if from < to {
      FirstShows(t, ApplyWrites(t.net1, live, desired), from, to) by { WritesLast(t.net1, live, desired); }
      NotYet(t, live, desired, from);
    }
  }

  lemma FirstShows(t: Trunk, ws: seq<Write>, from: nat, to: nat)
    requires from < to <= |ws| && forall i, j :: 0 <= i < j < |ws| ==> Lasting(ws[i], ws[j])
    ensures Shows(ws[from], ApplyAll(t, ws[from..to]))
  {
    var w, rest := ws[from], ws[from + 1..to];
    assert ws[from..to][0] == w && ws[from..to][1..] == rest;
    assert forall k :: 0 <= k < |rest| ==> rest[k] == ws[from + 1 + k];
    LastingKept(Apply(t, w), w, rest);
  }

  /** Every write of an apply is needed. */
  lemma NotYet(t: Trunk, live: seq<int>, desired: seq<nat>, k: nat)
    requires Elements(live) == t.live && k < |ApplyWrites(t.net1, live, desired)|
    ensures !Shows(ApplyWrites(t.net1, live, desired)[k], t)
  {
    var w := ApplyWrites(t.net1, live, desired)[k];
    MinusElements(desired, live);
    MinusElements(live, desired);
    WritesWanted(t.net1, live, desired);
    if w.SetNet1? { FirstOnly(t.net1, live, desired, k); }
    assert w.Join? ==> w.vlan !in Elements(live);
    assert w.Leave? ==> w.vlan in Elements(live);
  }

  lemma FirstOnly(net1: string, live: seq<int>, desired: seq<nat>, k: nat)
    requires k < |ApplyWrites(net1, live, desired)| && ApplyWrites(net1, live, desired)[k].SetNet1?
    ensures ApplyWrites(net1, live, desired)[k].text != net1
  { }

  /** A second apply that starts while the timer of an unrecorded one still runs rewrites the script from what it finds:
      firing then leaves the half-way trunk, so the original is restored exactly when nothing had moved yet. */
  lemma SecondApplyExact(base: Trunk, now: Trunk, first: seq<nat>, second: seq<nat>)
    requires PartWay(base, now, Listed(base.live), first)
    ensures ApplyAll(now, UndoScript(base.net1, Listed(base.live), first)) == base
    ensures ApplyAll(now, UndoScript(now.net1, Listed(now.live), second)) == now
    ensures ApplyAll(now, UndoScript(now.net1, Listed(now.live), second)) == base <==> now == base
  {
    RollbackRestores(base, now, Listed(base.live), first);
    var ws := ApplyWrites(now.net1, Listed(now.live), second);
    assert ws[0..0] == [] && now == ApplyAll(now, ws[0..0]);
    RollbackRestores(now, now, Listed(now.live), second);
  }

  // ---- the planner -----------------------------------------------------------------------------------------------

  datatype Observation = Observation(persistent: seq<int>, vethPresent: bool, live: seq<int>)

  datatype Plan = Plan(
    desired: seq<int>, persistentSatisfied: bool, liveSatisfied: bool, add: seq<int>, remove: seq<int>, noChange: bool)

  predicate InRange(s: seq<int>) { forall k :: 0 <= k < |s| ==> 2 <= s[k] <= 4094 }

  /** Refuses lists outside the taggable range and any list without the migration VLAN. */
  function PlanAccessTrunk(wanted: seq<int>, o: Observation): Option<Plan> {
    var desired, persistent, live := CanonicalList(wanted), CanonicalList(o.persistent), CanonicalList(o.live);
    if !InRange(wanted) || !InRange(o.persistent) || !InRange(o.live) || MIGRATION_VLAN !in desired then None
    else
      var here := o.vethPresent && live == desired;
      Some(Plan(desired, persistent == desired, here,
                if o.vethPresent then Minus(desired, live) else [], if o.vethPresent then Minus(live, desired) else [],
                persistent == desired && here))
  }

  /** A plan asks for nothing exactly when both halves already hold the wanted set and the live half can be seen. */
  lemma NoChangeExactly(wanted: seq<int>, o: Observation)
    requires PlanAccessTrunk(wanted, o).Some?
    ensures var plan := PlanAccessTrunk(wanted, o).value;
      && (plan.persistentSatisfied <==> Elements(o.persistent) == Elements(wanted))
      && (plan.liveSatisfied <==> o.vethPresent && Elements(o.live) == Elements(wanted))
      && (plan.noChange <==> plan.persistentSatisfied && plan.liveSatisfied)
      && (!o.vethPresent ==> plan.add == [] && plan.remove == [])
  {
    CanonicalKeeps(wanted);
    CanonicalKeeps(o.persistent);
    CanonicalKeeps(o.live);
    if Elements(o.persistent) == Elements(wanted) {
      CanonicalUnique(CanonicalList(o.persistent), CanonicalList(wanted));
    }
    if Elements(o.live) == Elements(wanted) { CanonicalUnique(CanonicalList(o.live), CanonicalList(wanted)); }
  }

  /** The planner announces the live changes the host then makes, and planning again afterwards asks for nothing. */
  lemma PlannerAgreesWithHost(wanted: seq<nat>, t: Trunk, live: seq<int>, persistent: seq<int>)
    requires IsCanonical(live) && Elements(live) == t.live
    requires PlanAccessTrunk(wanted, Observation(persistent, true, live)).Some?
    ensures var plan := PlanAccessTrunk(wanted, Observation(persistent, true, live)).value;
      && plan.desired == CanonicalNats(wanted)
      && plan.add == Minus(CanonicalNats(wanted), live) && plan.remove == Minus(live, CanonicalNats(wanted))
    ensures var after := ApplyAll(t, ApplyWrites(t.net1, live, CanonicalNats(wanted)));
      forall seen ::
        Elements(seen) == after.live && InRange(seen)
        && ParseTrunks(after.net1).Some? && InRange(ParseTrunks(after.net1).value) ==>
        PlanAccessTrunk(wanted, Observation(ParseTrunks(after.net1).value, true, seen)).value.noChange
  {
    CanonicalKeeps(live);
    CanonicalUnique(CanonicalList(live), live);
    CanonicalKeeps(wanted);
    var desired := CanonicalNats(wanted);
    assert MIGRATION_VLAN in desired;
    ApplyReachesDesired(t, live, desired);
    var after := ApplyAll(t, ApplyWrites(t.net1, live, desired));
    forall seen | Elements(seen) == after.live && InRange(seen) && InRange(ParseTrunks(after.net1).value)
      ensures PlanAccessTrunk(wanted, Observation(ParseTrunks(after.net1).value, true, seen)).value.noChange
    {
      var o := Observation(ParseTrunks(after.net1).value, true, seen);
      assert PlanAccessTrunk(wanted, o).Some?;
      NoChangeExactly(wanted, o);
    }
  }
}
