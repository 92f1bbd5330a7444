/** Runs of the trunk host: applies cut anywhere, over whatever is on record, with commits, rollbacks and firings. */
module TrunkRuns {
  import opened Base
  import opened AccessTrunk

  datatype Event =
    | Asked(r: Request, writes: nat, fire: Option<Firing>)
    | Commit(id: string, stops: bool)
    | Rollback(requested: Option<string>, fails: bool, stops: bool)
    | TimerFires(fails: bool)

  function Step(h: Host, e: Event): Host {
    match e
    case Asked(r, writes, fire) => AfterApply(h, r, writes, fire)
    case Commit(id, stops) => AfterCommit(h, id, stops)
    case Rollback(requested, fails, stops) => AfterRollback(h, requested, fails, stops)
    case TimerFires(fails) => AfterFiring(h, fails)
  }

  function RunOf(h: Host, events: seq<Event>): Host
    decreases |events|
  {
    if events == [] then h else RunOf(Step(h, events[0]), events[1..])
  }

  predicate Accepted(h: Host, e: Event) { e.Asked? && !Refuses(h, e.r) }

  /** The script is run to its end, by a rollback or by the timer. */
  predicate RunsScript(h: Host, e: Event) {
    (e.Rollback? && RollsBack(h, e.requested, e.fails)) || (e.TimerFires? && h.timer && !e.fails)
  }

  /** No apply gets through while a timer is armed; what happens otherwise, `SecondApplyExact` says. */
  predicate Legal(h: Host, events: seq<Event>)
    decreases |events|
  {
    events == [] || ((Accepted(h, events[0]) ==> !h.timer) && Legal(Step(h, events[0]), events[1..]))
  }

  // ---- the invariant -------------------------------------------------------------------------------------

  /** What the last apply found and wanted, what it left, and whether its script was run since. */
  datatype History = History(base: Trunk, desired: seq<nat>, after: Trunk, ran: bool)

  function Begun(h: Host, e: Event): History
    requires e.Asked?
  {
    History(h.trunk, CanonicalNats(e.r.desired), Step(h, e).trunk, false)
  }

  function Track(y: History, h: Host, e: Event): History {
    if Accepted(h, e) then Begun(h, e) else if RunsScript(h, e) then y.(ran := true) else y
  }

  /** The script is that of the last apply, and the trunk is what that apply left or what it had found. */
  ghost predicate Inv(h: Host, y: History) {
    && h.script == UndoScript(y.base.net1, Listed(y.base.live), y.desired)
    && PartWay(y.base, y.after, Listed(y.base.live), y.desired)
    && h.trunk == if y.ran then y.base else y.after
  }

  /** From there the script gives back what the last apply had found. */
  lemma ScriptGivesBack(h: Host, y: History)
    requires Inv(h, y)
    ensures ApplyAll(h.trunk, h.script) == y.base
  {
    RollbackRestores(y.base, y.after, Listed(y.base.live), y.desired);
  }

  /** An apply begins a history on any host without a timer. */
  lemma ApplyBegins(h: Host, e: Event)
    requires Accepted(h, e) && !h.timer
    ensures Inv(Step(h, e), Begun(h, e))
  {
    var live, desired := Listed(h.trunk.live), CanonicalNats(e.r.desired);
    var ws, made := WritesOf(h, e.r), Made(h.trunk.net1, live, desired, e.writes);
    assert Step(h, e).trunk == ApplyAll(h.trunk, ws[Since(e.fire, made)..made]);
  }

  lemma StepKeeps(h: Host, y: History, e: Event)
    requires Inv(h, y) && (Accepted(h, e) ==> !h.timer)
    ensures Inv(Step(h, e), Track(y, h, e))
  {
    if Accepted(h, e) {
      ApplyBegins(h, e);
    } else if RunsScript(h, e) {
      ScriptGivesBack(h, y);
    }
  }

  function Play(y: History, h: Host, events: seq<Event>): History
    decreases |events|
  {
    if events == [] then y else Play(Track(y, h, events[0]), Step(h, events[0]), events[1..])
  }

  lemma {:induction false} RunKeeps(h: Host, y: History, events: seq<Event>)
    requires Inv(h, y) && Legal(h, events)
    ensures Inv(RunOf(h, events), Play(y, h, events))
    decreases |events|
  {
    if events != [] {
      StepKeeps(h, y, events[0]);
      RunKeeps(Step(h, events[0]), Track(y, h, events[0]), events[1..]);
    }
  }

  // ---- atomicity -------------------------------------------------------------------------------------------

  predicate NoApply(h: Host, events: seq<Event>)
    decreases |events|
  {
    events == [] || (!Accepted(h, events[0]) && NoApply(Step(h, events[0]), events[1..]))
  }

  predicate SomeRun(h: Host, events: seq<Event>)
    decreases |events|
  {
    events != [] && (RunsScript(h, events[0]) || SomeRun(Step(h, events[0]), events[1..]))
  }

  lemma {:induction false} PlayWithoutApply(y: History, h: Host, events: seq<Event>)
    requires NoApply(h, events)
    ensures Play(y, h, events) == y.(ran := y.ran || SomeRun(h, events)) && Legal(h, events)
    decreases |events|
  {
    if events != [] {
      PlayWithoutApply(Track(y, h, events[0]), Step(h, events[0]), events[1..]);
    }
  }

  /**
   * An apply starts on any host without a timer, whatever is on record there, and dies anywhere, finishes, or is caught
   * by its own timer. Then, until the next apply gets through, the trunk is the one it found if its script was run to
   * the end since, whether under its own name or an older one's, and the one it left otherwise; and running the script
   * would give back the one it found.
   */
  lemma TrunkAtomicity(h: Host, e: Event, later: seq<Event>)
    requires Accepted(h, e) && !h.timer && NoApply(Step(h, e), later)
    ensures var s := Step(h, e);
      var final := RunOf(s, later);
      && final.trunk == (if SomeRun(s, later) then h.trunk else s.trunk)
      && ApplyAll(final.trunk, final.script) == h.trunk
  {
    var s, y := Step(h, e), Begun(h, e);
    ApplyBegins(h, e);
    PlayWithoutApply(y, s, later);
    RunKeeps(s, y, later);
    ScriptGivesBack(RunOf(s, later), Play(y, s, later));
  }

  /** A commit takes effect exactly on a trunk that holds the list on record, in both halves and with the interface up;
      behind an apply that did not come to record itself that is the list of an older one. */
  lemma CommitTakesEffect(h: Host, e: Event, id: string)
    requires Accepted(h, e) && !h.timer
    ensures var s, live, desired := Step(h, e), Listed(h.trunk.live), CanonicalNats(e.r.desired);
      var made := Made(h.trunk.net1, live, desired, e.writes);
      Commits(s, id) <==>
        if e.writes > |WritesOf(h, e.r)| then id == e.r.id && BothHold(s, desired)
        else
          && !(InTime(e.fire, made) && !e.fire.value.fails)
          && h.transaction.Some? && id == h.transaction.value.id && BothHold(s, h.transaction.value.desired)
  { }
}
