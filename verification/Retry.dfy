/** One revision-guarded provisioning step: bounded revision retries, and a separate deadline for held locks. */
module Retry {
  import opened Base

  datatype Reply = Locked | Conflict | Broken | Finished(succeeded: bool, id: int)

  datatype Outcome = Succeeded(id: int) | Failed | Unsettled

  const RETRY_MS := 2000

  /** The environment: the reply to each apply call, how long the call took, and how long a sleep after it really
      lasted. */
  datatype World = World(reply: nat -> Reply, callTime: nat -> nat, sleepTime: nat -> nat)

  function Ceiling(w: nat): nat { (w + RETRY_MS - 1) / RETRY_MS }

  function Conflicts(w: World, n: nat): nat {
    if n == 0 then 0 else Conflicts(w, n - 1) + if w.reply(n - 1) == Conflict then 1 else 0
  }

  function Locks(w: World, n: nat): nat {
    if n == 0 then 0 else Locks(w, n - 1) + if w.reply(n - 1) == Locked then 1 else 0
  }

  /** How long `n` calls took that were all followed by another one, sleeps included. */
  function Spent(w: World, n: nat): nat {
    if n == 0 then 0
    else Spent(w, n - 1) + w.callTime(n - 1) + if w.reply(n - 1) == Locked then w.sleepTime(n - 1) else 0
  }

  /** How long the step had been running when reply `k` came. */
  function AtReply(w: World, k: nat): nat { Spent(w, k) + w.callTime(k) }

  /** A lock is waited out only while the budget lasts. */
  ghost predicate WaitedInTime(w: World, n: nat, lockWait: nat) {
    forall k: nat :: k < n && w.reply(k) == Locked ==> AtReply(w, k) < lockWait
  }

  /** Up to call `n` nothing but conflicts and waited-out locks happened. */
  ghost predicate OnlyRetries(w: World, n: nat) {
    forall k: nat :: k < n ==> w.reply(k) == Conflict || w.reply(k) == Locked
  }

  lemma {:induction false} RetriesCounted(w: World, n: nat)
    requires OnlyRetries(w, n)
    ensures Conflicts(w, n) + Locks(w, n) == n
  {
    if n > 0 {
      RetriesCounted(w, n - 1);
      assert w.reply(n - 1) == Conflict || w.reply(n - 1) == Locked;
    }
  }

  /** `calls` never exceeds the attempts plus the lock waits the budget allows, because every wait really sleeps. Held
      locks never use up an attempt: the step gives up unsettled exactly when `attempts` replies were conflicts. */
  method RunStep(attempts: nat, lockWait: nat, start: int, w: World) returns (outcome: Outcome, calls: nat, now: int)
    requires forall k: nat :: w.sleepTime(k) >= RETRY_MS
    ensures calls <= attempts + Ceiling(lockWait)
    ensures outcome == Unsettled <==> OnlyRetries(w, calls) && Conflicts(w, calls) == attempts
    ensures outcome != Unsettled ==> calls > 0 && OnlyRetries(w, calls - 1) && Conflicts(w, calls) < attempts
    ensures outcome.Succeeded? ==> w.reply(calls - 1) == Finished(true, outcome.id)
    ensures outcome == Failed ==>
      w.reply(calls - 1) == Broken || (w.reply(calls - 1).Finished? && !w.reply(calls - 1).succeeded)
      || (w.reply(calls - 1) == Locked && AtReply(w, calls - 1) >= lockWait)
    ensures WaitedInTime(w, if outcome == Unsettled then calls else calls - 1, lockWait)
    ensures now == start + if outcome == Unsettled then Spent(w, calls) else AtReply(w, calls - 1)
  {
    var remaining, deadline := attempts, start + lockWait;
    ghost var waits: nat := 0;
    calls, now := 0, start;
    while remaining > 0
      invariant OnlyRetries(w, calls)
      invariant Conflicts(w, calls) + remaining == attempts && Locks(w, calls) == waits
      invariant now == start + Spent(w, calls) && WaitedInTime(w, calls, lockWait)
      invariant now >= start + waits * RETRY_MS
      invariant waits <= Ceiling(lockWait)
      decreases remaining, deadline - now
    {
      RetriesCounted(w, calls);
      var reply := w.reply(calls);
      now := now + w.callTime(calls);
      calls := calls + 1;
      match reply
      case Locked =>
        if now >= deadline {
          return Failed, calls, now;
        }
        BudgetLeft(waits, lockWait, now - start);
        now := now + w.sleepTime(calls - 1);
        waits := waits + 1;
      case Conflict =>
        remaining := remaining - 1;
      case Broken =>
        return Failed, calls, now;
      case Finished(succeeded, id) =>
        return if succeeded then Succeeded(id) else Failed, calls, now;
    }
    RetriesCounted(w, calls);
    outcome := Unsettled;
  }

  lemma BudgetLeft(waits: nat, lockWait: nat, elapsed: int)
    requires waits * RETRY_MS <= elapsed < lockWait
    ensures waits + 1 <= Ceiling(lockWait)
  { }
}
