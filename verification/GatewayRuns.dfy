/** Runs of the Gateway guest: any mix of crashing stages, commits, rollbacks and timer firings, inside stages too, and
    stages begun over the record of an earlier one. */
module GatewayRuns {
  import opened Base
  import opened GatewayPaths
  import opened GatewayGuest
  import opened GatewayProtocol
  import opened GatewayCaught
  import opened GatewayHollow

  /** The anti-stacking guard: the one the applier has, the timer test on its own, and both tests with an "or". */
  datatype Guard = AsWritten | TimerAlone | EitherOne

  predicate Refuses(guard: Guard, g: Guest) {
    match guard
    case AsWritten => g.armed && g.transaction.Some?
    case TimerAlone => g.armed
    case EitherOne => g.armed || g.transaction.Some?
  }

  predicate Staged(guard: Guard, g: Guest, e: Event) {
    e.Stage? && Accepts(e.req) && !Refuses(guard, g)
  }

  predicate Committed(g: Guest, e: Event) {
    e.Commit? && e.converged && g.transaction.Some? && g.transaction.value.id == e.id
  }

  /** An empty identifier asks for whatever is recorded. */
  predicate RollsBack(g: Guest, e: Event) {
    && e.Rollback? && g.transaction.Some?
    && (e.requested.Some? && e.requested.value != "" ==> e.requested.value == g.transaction.value.id)
  }

  /** A request that is refused, or that raises, leaves the guest as it was (a failing script excepted). */
  function Step(guard: Guard, g: Guest, e: Event): Guest {
    match e
    case Stage(_, _, _, _, _, _) => if Staged(guard, g, e) then StageAfter(g, e) else g
    case Commit(_, _, stops) =>
      if Committed(g, e) then g.(armed := g.armed && !stops, backup := map[], transaction := None) else g
    case Rollback(_, stops) =>
      if !RollsBack(g, e) then g
      else
        var (after, ok) := RunScript(g.script, g);
        if ok then after.(armed := after.armed && !stops) else after
    case TimerFires => Elapsed(g)
  }

  function RunOf(guard: Guard, g: Guest, events: seq<Event>): Guest
    decreases |events|
  {
    if events == [] then g else RunOf(guard, Step(guard, g, events[0]), events[1..])
  }

  /** The script is run, by a rollback or by the timer. */
  predicate RunsScript(g: Guest, e: Event) { RollsBack(g, e) || (e.TimerFires? && g.armed) }

  /** No stage gets through while a timer is armed. */
  ghost predicate Sound(guard: Guard, g: Guest, e: Event) { Staged(guard, g, e) ==> Possible(g, e) && !g.armed }

  ghost predicate Legal(guard: Guard, g: Guest, events: seq<Event>)
    decreases |events|
  {
    events == [] || (Sound(guard, g, events[0]) && Legal(guard, Step(guard, g, events[0]), events[1..]))
  }

  /** The stages that get through were told the truth about the files they found. */
  ghost predicate AllPossible(guard: Guard, g: Guest, events: seq<Event>)
    decreases |events|
  {
    events != [] ==>
      && (Staged(guard, g, events[0]) ==> Possible(g, events[0]))
      && AllPossible(guard, Step(guard, g, events[0]), events[1..])
  }

  /** A guard that tests the timer sees to that itself, in every run there is. */
  lemma {:induction false} TimerTestSuffices(guard: Guard, g: Guest, events: seq<Event>)
    requires guard != AsWritten && AllPossible(guard, g, events)
    ensures Legal(guard, g, events)
    decreases |events|
  {
    if events != [] {
      TimerTestSuffices(guard, Step(guard, g, events[0]), events[1..]);
    }
  }

  // ---- a stage over a record that is still there ------------------------------------------------------

  /** The stage came to write its script. */
  predicate Written(e: Event) {
    e.Stage? && Validates(e.req, e.verdict) && e.crash >= |SilentPart(e.req, e.listing)|
  }

  /** The stage recorded itself, and its own timer did not take the record away again. */
  predicate Recorded(g: Guest, e: Event) {
    Completes(e) && (Caught(g, e) ==> MadeBefore(e) < |Tail(e.req, e.listing, e.id)|)
  }

  /** The stage ended between clearing the backups and writing its script, and an older transaction is still on record:
      a rollback of that one finds the old script without its backups. */
  predicate Loose(g: Guest, e: Event) { e.Stage? && g.transaction.Some? && !Written(e) }

  lemma NothingWritten(g: Guest, e: Event)
    requires e.Stage? && !g.armed && e.crash == 0
    ensures StageAfter(g, e) == g
  {
    assert Cut(StageProgram(g, e), 0) == [];
    assert Run(g, []) == g;
  }

  lemma UnwrittenStage(g: Guest, e: Event, paths: seq<Path>, kept: map<string, string>)
    requires !g.armed && Possible(g, e) && e.Stage? && Accepts(e.req) && !Written(e) && e.crash > 0
    requires AllAllowed(paths) && g.script == ScriptFor(paths, kept)
    ensures var s := StageAfter(g, e);
      Hollow(s, paths, kept) && SameLive(s, g) && !s.armed && s.transaction == g.transaction
  {
    var program, prepare := StageProgram(g, e), Prepare(e.req, e.listing);
    var cut := Cut(program, e.crash);
    assert prepare <= program && [ClearDirectories] <= prepare;
    assert !Validates(e.req, e.verdict) ==> program == prepare;
    assert [ClearDirectories] <= cut <= prepare;
    assert forall i :: 0 <= i < |cut| ==> cut[i] == prepare[i] && Silent(prepare[i]);
    UnarmedElapse(g, cut, e.fire);
    PreparingHollows(g, e, cut, paths, kept);
    SilentRun(g, cut);
  }

  lemma WrittenStage(g: Guest, e: Event)
    requires !g.armed && Possible(g, e) && Written(e) && Accepts(e.req) && !Arms(e)
    ensures var s := StageAfter(g, e);
      Protected(s, g, Touched(e.req, e.listing)) && SameLive(s, g) && !s.armed && s.transaction == g.transaction
  {
    var silent := SilentPart(e.req, e.listing);
    ProgramSplit(e.req, e.listing, e.id);
    assert Cut(StageProgram(g, e), e.crash) == silent;
    SilentWrites(e.req, e.listing);
    UnarmedElapse(g, silent, e.fire);
    PreparedProtected(g, e.req, e.listing);
  }

  // ---- the invariant ------------------------------------------------------------------------------

  /** A script that lost its backups: what it was written for, what it would remove, and whether the links matched when
      that happened. */
  datatype Remains = Remains(paths: seq<Path>, kept: map<string, string>, swept: set<Path>, matched: bool)

  /** What the last stage started from, what it was to reach, what it left behind in files and backups, whether it
      recorded itself, whether its own timer caught it, whether a script was run or a commit took effect since, and
      whether the script has lost its backups. */
  datatype History = History(
    base: Guest, touched: seq<Path>, target: Files, after: Files, saved: map<string, string>, recorded: bool,
    caught: bool, ran: bool, committed: bool, hollow: Option<Remains>)

  /** The paths the current script was written for, and the backups it was written over. */
  function ScriptPaths(h: History): seq<Path> { if h.hollow.Some? then h.hollow.value.paths else h.touched }

  function ScriptKept(h: History): map<string, string> { if h.hollow.Some? then h.hollow.value.kept else h.saved }

  ghost function Begun(g: Guest, e: Event, h: History): History
    requires e.Stage?
  {
    var s := StageAfter(g, e);
    var left := Remains(ScriptPaths(h), ScriptKept(h), Swept(ScriptPaths(h), ScriptKept(h), s.backup), LinksMatch(g));
    History(g, Touched(e.req, e.listing), Target(g.files, e.req), s.files, s.backup, Recorded(g, e), Caught(g, e),
            false, false, if Loose(g, e) then Some(left) else None)
  }

  ghost function CommitTracked(h: History, g: Guest, stops: bool): History {
    var left := Remains(h.touched, h.saved, Swept(h.touched, h.saved, map[]), LinksMatch(g));
    h.(committed := true, hollow := if g.armed && !stops && h.hollow.None? then Some(left) else h.hollow)
  }

  ghost function Track(guard: Guard, h: History, g: Guest, e: Event): History {
    if Staged(guard, g, e) then if e.crash > 0 then Begun(g, e, h) else h
    else if Committed(g, e) then CommitTracked(h, g, e.stops)
    else if RunsScript(g, e) then h.(ran := true)
    else h
  }

  ghost predicate Inv(g: Guest, h: History) {
    && (h.recorded && !h.caught ==> h.after == h.target)
    && if h.hollow.Some? then HollowInv(g, h, h.hollow.value) else FirmInv(g, h)
  }

  /** The script no longer matches its backups: a stage went loose, or a commit could not stop its timer. */
  ghost predicate HollowInv(g: Guest, h: History, left: Remains) {
    && (g.transaction.Some? ==> !g.armed && !h.committed && h.base.transaction.Some?)
    && (g.armed ==> h.committed)
    && (g.armed || g.transaction.Some? ==>
          Hollow(g, left.paths, left.kept) && left.swept == Swept(left.paths, left.kept, g.backup))
    && g.files == h.after - (if h.ran then left.swept else {})
    && (left.matched ==> LinksMatch(g))
    && (h.recorded && !h.caught && LinksMatch(h.base) ==> left.matched)
  }

  ghost predicate FirmInv(g: Guest, h: History) {
    && (h.ran ==> g.transaction.None? && !h.committed)
    && (!h.committed ==> g.backup == h.saved)
    && if h.committed then Ready(g) && g.files == h.after && LinksReached(g, h)
       else if g.armed then
         && !h.caught && Protected(g, h.base, h.touched)
         && (g.transaction.Some? ==>
               g.files == h.after && LinksReached(g, h) && (h.recorded || h.base.transaction.Some?))
       else if g.transaction.Some? || (h.caught && !h.ran) then
         && Protected(g, h.base, h.touched) && g.files == h.after
         && (g.transaction.Some? ==> h.caught || (h.base.transaction.Some? && !h.recorded))
       else Mended(g, h.base)
  }

  ghost predicate LinksReached(g: Guest, h: History) {
    h.recorded && !h.caught && LinksMatch(h.base) ==> LinksMatch(g)
  }

  /** On a guest whose record is still there and whose timer is not, the script is known. */
  lemma ScriptKnown(g: Guest, h: History)
    requires Inv(g, h) && !g.armed && g.transaction.Some?
    ensures AllAllowed(ScriptPaths(h)) && g.script == ScriptFor(ScriptPaths(h), ScriptKept(h))
  { }

  lemma StageKeeps(g: Guest, e: Event, h: History)
    requires !g.armed && Possible(g, e) && e.Stage? && Accepts(e.req) && e.crash > 0
    requires Loose(g, e) ==> AllAllowed(ScriptPaths(h)) && g.script == ScriptFor(ScriptPaths(h), ScriptKept(h))
    ensures Inv(StageAfter(g, e), Begun(g, e, h))
  {
    if Completes(e) { CompleteArms(e); }
    if Loose(g, e) {
      LooseKeeps(g, e, h);
    } else if !Arms(e) {
      UnarmedKeeps(g, e, h);
    } else if Caught(g, e) {
      CaughtKeeps(g, e, h);
    } else {
      LateKeeps(g, e, h);
    }
  }

  lemma CompleteArms(e: Event)
    requires Completes(e)
    ensures Arms(e) && Written(e)
  {
    ProgramSplit(e.req, e.listing, e.id);
  }

  lemma LooseKeeps(g: Guest, e: Event, h: History)
    requires !g.armed && Possible(g, e) && Loose(g, e) && Accepts(e.req) && e.crash > 0 && !Completes(e)
    requires AllAllowed(ScriptPaths(h)) && g.script == ScriptFor(ScriptPaths(h), ScriptKept(h))
    ensures Inv(StageAfter(g, e), Begun(g, e, h))
  {
    UnwrittenStage(g, e, ScriptPaths(h), ScriptKept(h));
    LooseBegun(g, StageAfter(g, e), Begun(g, e, h));
  }

  lemma LooseBegun(g: Guest, s: Guest, h: History)
    requires h.hollow.Some? && h.base == g && g.transaction.Some? && h.after == g.files
    requires !h.recorded && !h.ran && !h.committed
    requires var left := h.hollow.value;
      && Hollow(s, left.paths, left.kept) && left.swept == Swept(left.paths, left.kept, s.backup)
      && left.matched == LinksMatch(g)
    requires SameLive(s, g) && !s.armed && s.transaction == g.transaction
    ensures Inv(s, h)
  {
    assert g.files - {} == g.files;
  }

  lemma UnarmedKeeps(g: Guest, e: Event, h: History)
    requires !g.armed && Possible(g, e) && e.Stage? && Accepts(e.req) && !Loose(g, e) && !Arms(e) && !Completes(e)
    ensures Inv(StageAfter(g, e), Begun(g, e, h))
  {
    EarlyStage(g, e);
    if Written(e) { WrittenStage(g, e); }
  }

  lemma CaughtKeeps(g: Guest, e: Event, h: History)
    requires !g.armed && Possible(g, e) && Caught(g, e) && Accepts(e.req) && Written(e)
    ensures Inv(StageAfter(g, e), Begun(g, e, h))
  {
    CaughtStage(g, e);
  }

  lemma LateKeeps(g: Guest, e: Event, h: History)
    requires !g.armed && Possible(g, e) && Arms(e) && !Caught(g, e) && Accepts(e.req) && Written(e)
    ensures Inv(StageAfter(g, e), Begun(g, e, h))
  {
    LateStage(g, e);
  }

  lemma CommitKeeps(g: Guest, h: History, e: Event)
    requires Inv(g, h) && Committed(g, e)
    ensures Inv(Step(AsWritten, g, e), CommitTracked(h, g, e.stops))
  {
    if g.armed && !e.stops {
      StuckKeeps(g, h);
    } else {
      StoppedKeeps(g, h);
    }
  }

  lemma StoppedKeeps(g: Guest, h: History)
    requires Inv(g, h) && g.transaction.Some?
    ensures Inv(g.(armed := false, backup := map[], transaction := None), h.(committed := true))
  { }

  /** The commit threw the backups away and the timer runs on. */
  lemma StuckKeeps(g: Guest, h: History)
    requires Inv(g, h) && g.armed && g.transaction.Some?
    ensures Inv(g.(backup := map[], transaction := None), CommitTracked(h, g, false))
  {
    assert h.hollow.None? && !h.committed && !h.ran;
    assert g.files - {} == g.files;
  }

  /** The script, run once more. */
  lemma ScriptKeeps(g: Guest, h: History, r: Guest, armed: bool)
    requires Inv(g, h) && (g.armed || g.transaction.Some?)
    requires r == RunScript(g.script, g).0.(armed := armed) && (armed ==> RunScript(g.script, g).0.armed)
    ensures Inv(r, h.(ran := true))
  {
    if h.hollow.Some? {
      var left := h.hollow.value;
      Sweep(g, left.paths, left.kept);
      assert h.after - (if h.ran then left.swept else {}) - left.swept == h.after - left.swept;
    } else {
      ScriptRestores(g, h.base, h.touched);
    }
  }

  lemma StepKeeps(guard: Guard, g: Guest, h: History, e: Event)
    requires Inv(g, h) && Sound(guard, g, e)
    ensures Inv(Step(guard, g, e), Track(guard, h, g, e))
  {
    if Staged(guard, g, e) {
      if e.crash > 0 { StageKeeps(g, e, h); } else { NothingWritten(g, e); }
    } else if Committed(g, e) {
      CommitKeeps(g, h, e);
    } else if RollsBack(g, e) {
      var (after, ok) := RunScript(g.script, g);
      ScriptKeeps(g, h, Step(guard, g, e), if ok then after.armed && !e.stops else after.armed);
    } else if e.TimerFires? && g.armed {
      ScriptKeeps(g, h, Fire(g), false);
    }
  }

  ghost function Play(guard: Guard, g: Guest, h: History, events: seq<Event>): History
    decreases |events|
  {
    if events == [] then h
    else Play(guard, Step(guard, g, events[0]), Track(guard, h, g, events[0]), events[1..])
  }

  lemma {:induction false} RunKeeps(guard: Guard, g: Guest, h: History, events: seq<Event>)
    requires Inv(g, h) && Legal(guard, g, events)
    ensures Inv(RunOf(guard, g, events), Play(guard, g, h, events))
    decreases |events|
  {
    if events != [] {
      var next, tracked, rest := Step(guard, g, events[0]), Track(guard, h, g, events[0]), events[1..];
      StepKeeps(guard, g, h, events[0]);
      RunKeeps(guard, next, tracked, rest);
      assert RunOf(guard, g, events) == RunOf(guard, next, rest);
      assert Play(guard, g, h, events) == Play(guard, next, tracked, rest);
    }
  }

  // ---- what a guest without a timer is left with ----------------------------------------------------

  predicate EverCaught(guard: Guard, g: Guest, events: seq<Event>)
    decreases |events|
  {
    events != [] &&
    ((Staged(guard, g, events[0]) && Caught(g, events[0])) || EverCaught(guard, Step(guard, g, events[0]), events[1..]))
  }

  /** Begun on a quiet guest, never caught, and committed only when recorded. */
  predicate Uncaught(h: History) {
    !h.caught && Quiet(h.base) && (h.committed ==> h.recorded) && (h.hollow.Some? ==> h.committed)
  }

  lemma UncaughtUnarmed(g: Guest, h: History)
    requires Inv(g, h) && Uncaught(h) && !g.armed
    ensures Quiet(g)
  { }

  lemma UncaughtStep(guard: Guard, g: Guest, h: History, e: Event)
    requires Inv(g, h) && Uncaught(h) && Sound(guard, g, e)
    requires !(Staged(guard, g, e) && Caught(g, e))
    ensures Uncaught(Track(guard, h, g, e))
  {
    if Staged(guard, g, e) { UncaughtUnarmed(g, h); }
  }

  lemma {:induction false} NeverCaught(guard: Guard, g: Guest, h: History, events: seq<Event>)
    requires Inv(g, h) && Uncaught(h) && Legal(guard, g, events) && !EverCaught(guard, g, events)
    ensures Uncaught(Play(guard, g, h, events))
    decreases |events|
  {
    if events != [] {
      StepKeeps(guard, g, h, events[0]);
      UncaughtStep(guard, g, h, events[0]);
      NeverCaught(guard, Step(guard, g, events[0]), Track(guard, h, g, events[0]), events[1..]);
    }
  }

  ghost function Fresh(g: Guest): History {
    History(g, [], g.files, g.files, g.backup, false, false, false, false, None)
  }

  /** Whatever happened before, a guest without an armed timer is ready for the next stage, unless a stage outlived its
      own timer. */
  lemma UnarmedIsQuiet(guard: Guard, start: Guest, events: seq<Event>)
    requires Quiet(start) && Legal(guard, start, events) && !EverCaught(guard, start, events)
    ensures var g := RunOf(guard, start, events); !g.armed ==> Quiet(g)
  {
    var h := Fresh(start);
    RunKeeps(guard, start, h, events);
    NeverCaught(guard, start, h, events);
    var g := RunOf(guard, start, events);
    if !g.armed { UncaughtUnarmed(g, Play(guard, start, h, events)); }
  }

  // ---- two-phase atomicity --------------------------------------------------------------------------

  /** No stage got through to the guest during these events. */
  predicate NoStage(guard: Guard, g: Guest, events: seq<Event>)
    decreases |events|
  {
    events == [] || (!Staged(guard, g, events[0]) && NoStage(guard, Step(guard, g, events[0]), events[1..]))
  }

  predicate SomeCommit(guard: Guard, g: Guest, events: seq<Event>)
    decreases |events|
  {
    events != [] && (Committed(g, events[0]) || SomeCommit(guard, Step(guard, g, events[0]), events[1..]))
  }

  predicate SomeRun(guard: Guard, g: Guest, events: seq<Event>)
    decreases |events|
  {
    events != [] && (RunsScript(g, events[0]) || SomeRun(guard, Step(guard, g, events[0]), events[1..]))
  }

  /** The script stays as it was, or loses its backups to a commit. */
  ghost predicate SameOrStuck(h: History, last: History) {
    last.hollow == h.hollow
    || (last.committed && last.hollow.Some? && h.hollow.None?
        && last.hollow.value.swept == Swept(h.touched, h.saved, map[]))
  }

  lemma TrackFlags(guard: Guard, g: Guest, h: History, e: Event)
    requires !Staged(guard, g, e)
    ensures var next := Track(guard, h, g, e);
      && next == h.(committed := h.committed || Committed(g, e), ran := h.ran || RunsScript(g, e),
                    hollow := next.hollow)
      && SameOrStuck(h, next)
  { }

  /** Only the flags move, and the script. */
  lemma {:induction false} PlayWithoutStage(guard: Guard, g: Guest, h: History, events: seq<Event>)
    requires NoStage(guard, g, events)
    ensures var last := Play(guard, g, h, events);
      && last == h.(committed := h.committed || SomeCommit(guard, g, events),
                    ran := h.ran || SomeRun(guard, g, events), hollow := last.hollow)
      && SameOrStuck(h, last)
    decreases |events|
  {
    if events != [] {
      TrackFlags(guard, g, h, events[0]);
      PlayWithoutStage(guard, Step(guard, g, events[0]), Track(guard, h, g, events[0]), events[1..]);
    }
  }

  lemma {:induction false} NothingHappens(guard: Guard, g: Guest, events: seq<Event>)
    requires NoStage(guard, g, events) && !SomeCommit(guard, g, events) && !SomeRun(guard, g, events)
    ensures RunOf(guard, g, events) == g
    decreases |events|
  {
    if events != [] {
      assert Step(guard, g, events[0]) == g;
      NothingHappens(guard, g, events[1..]);
    }
  }

  /** What the guest is left with by a stage begun on `g`, which left `s`, and by what came after it. `paths` and `kept`
      are what the script found on `g` was written for. */
  ghost predicate Outcome(g: Guest, stage: Event, s: Guest, final: Guest, paths: seq<Path>, kept: map<string, string>,
                          committed: bool, ran: bool)
    requires stage.Stage?
  {
    if Loose(g, stage) then
      && !final.armed && (LinksMatch(g) ==> LinksMatch(final))
      && final.files == g.files - (if ran then Swept(paths, kept, s.backup) else {})
    else if committed then
      && final.transaction.None?
      && final.files == s.files - (if ran then Swept(Touched(stage.req, stage.listing), s.backup, map[]) else {})
      && (Recorded(g, stage) && !Caught(g, stage) ==>
            s.files == Target(g.files, stage.req) && (LinksMatch(g) ==> LinksMatch(final)))
    else if final.armed then Mended(Fire(final), g) && Ready(Fire(final))
    else if Caught(g, stage) && !ran then final == s
    else Mended(final, g) && (ran || g.transaction.None? ==> Ready(final))
  }

  /**
   * A stage starts on any guest without a timer, whatever is on record there. It dies anywhere or completes, is caught
   * by its own timer or not, and commits, rollbacks and timer firings follow in any order. (A stage that makes no write
   * at all leaves the guest alone, `NothingWritten`.)
   * Unless it went loose or a commit took effect: while the timer runs, letting it fire gives back the old guest; a
   * caught stage whose script was not run again stays as it ended; otherwise the old guest is back.
   * After a commit the files are what the stage left, which is the staged target if it recorded itself uncaught; a
   * timer that went on running then takes away what its script removes before the first copy.
   * A stage that went loose leaves the old files until the older transaction's script is run, which takes away what
   * that script removes before the first copy it misses.
   */
  lemma TwoPhaseAtomicity(guard: Guard, g: Guest, stage: Event, later: seq<Event>, paths: seq<Path>,
                          kept: map<string, string>)
    requires !g.armed && Possible(g, stage) && Staged(guard, g, stage) && stage.crash > 0
    requires Loose(g, stage) ==> AllAllowed(paths) && g.script == ScriptFor(paths, kept)
    requires NoStage(guard, Step(guard, g, stage), later)
    ensures var s := Step(guard, g, stage);
      Outcome(g, stage, s, RunOf(guard, s, later), paths, kept, SomeCommit(guard, s, later), SomeRun(guard, s, later))
  {
    OutcomeAfter(guard, g, stage, later, Fresh(g).(touched := paths, saved := kept));
  }

  lemma OutcomeAfter(guard: Guard, g: Guest, stage: Event, later: seq<Event>, before: History)
    requires !g.armed && Possible(g, stage) && stage.Stage? && Accepts(stage.req) && stage.crash > 0
    requires Loose(g, stage) ==> AllAllowed(before.touched) && g.script == ScriptFor(before.touched, before.saved)
    requires before.hollow.None? && NoStage(guard, StageAfter(g, stage), later)
    ensures var s := StageAfter(g, stage);
      Outcome(g, stage, s, RunOf(guard, s, later), before.touched, before.saved, SomeCommit(guard, s, later),
              SomeRun(guard, s, later))
  {
    var s, h := StageAfter(g, stage), Begun(g, stage, before);
    StageKeeps(g, stage, before);
    PlayedOut(guard, s, h, later);
    OutcomeOf(g, stage, before, RunOf(guard, s, later), Play(guard, s, h, later));
  }

  lemma {:induction false} NoStageLegal(guard: Guard, g: Guest, events: seq<Event>)
    requires NoStage(guard, g, events)
    ensures Legal(guard, g, events)
    decreases |events|
  {
    if events != [] {
      NoStageLegal(guard, Step(guard, g, events[0]), events[1..]);
    }
  }

  lemma PlayedOut(guard: Guard, s: Guest, h: History, later: seq<Event>)
    requires Inv(s, h) && !h.committed && !h.ran && NoStage(guard, s, later)
    ensures var final, last := RunOf(guard, s, later), Play(guard, s, h, later);
      && Inv(final, last) && SameOrStuck(h, last)
      && last == h.(committed := SomeCommit(guard, s, later), ran := SomeRun(guard, s, later), hollow := last.hollow)
      && (!last.committed && !last.ran ==> final == s)
      && (!s.armed ==> !final.armed)
  {
    NoStageLegal(guard, s, later);
    RunKeeps(guard, s, h, later);
    PlayWithoutStage(guard, s, h, later);
    if !SomeCommit(guard, s, later) && !SomeRun(guard, s, later) { NothingHappens(guard, s, later); }
    if !s.armed { StaysDown(guard, s, later); }
  }

  lemma OutcomeOf(g: Guest, stage: Event, before: History, final: Guest, last: History)
    requires !g.armed && Possible(g, stage) && stage.Stage? && Accepts(stage.req) && before.hollow.None?
    requires var s, h := StageAfter(g, stage), Begun(g, stage, before);
      && last == h.(committed := last.committed, ran := last.ran, hollow := last.hollow)
      && Inv(final, last) && SameOrStuck(h, last)
      && (!last.committed && !last.ran ==> final == s) && (!s.armed ==> !final.armed)
    ensures
      Outcome(g, stage, StageAfter(g, stage), final, before.touched, before.saved, last.committed, last.ran)
  {
    if Loose(g, stage) {
      StageSilent(g, stage);
      LooseOutcome(g, stage, before, final, last);
    } else if last.committed {
      CommittedOutcome(g, stage, before, final, last, before.touched, before.saved);
    } else {
      OpenOutcome(g, stage, before, final, last, before.touched, before.saved);
    }
  }

  lemma StageSilent(g: Guest, e: Event)
    requires !g.armed && e.Stage? && Possible(g, e) && Accepts(e.req) && !Arms(e)
    ensures var s := StageAfter(g, e); SameLive(s, g) && !s.armed && s.transaction == g.transaction
  {
    EarlyStage(g, e);
  }

  lemma LooseOutcome(g: Guest, stage: Event, before: History, final: Guest, last: History)
    requires Loose(g, stage) && before.hollow.None? && Inv(final, last) && !final.armed
    requires last == Begun(g, stage, before).(committed := last.committed, ran := last.ran)
    requires StageAfter(g, stage).files == g.files
    ensures Outcome(g, stage, StageAfter(g, stage), final, before.touched, before.saved, last.committed, last.ran)
  { }

  lemma CommittedOutcome(g: Guest, stage: Event, before: History, final: Guest, last: History, paths: seq<Path>,
                         kept: map<string, string>)
    requires stage.Stage? && !Loose(g, stage) && Inv(final, last) && last.committed
    requires var h := Begun(g, stage, before);
      last == h.(committed := true, ran := last.ran, hollow := last.hollow) && SameOrStuck(h, last)
    ensures Outcome(g, stage, StageAfter(g, stage), final, paths, kept, true, last.ran)
  {
    var s := StageAfter(g, stage);
    assert s.files - {} == s.files;
  }

  lemma OpenOutcome(g: Guest, stage: Event, before: History, final: Guest, last: History, paths: seq<Path>,
                    kept: map<string, string>)
    requires !g.armed && Possible(g, stage) && stage.Stage? && Accepts(stage.req) && !Loose(g, stage)
    requires Inv(final, last) && !last.committed && (!last.ran ==> final == StageAfter(g, stage))
    requires var h := Begun(g, stage, before); last == h.(ran := last.ran)
    ensures Outcome(g, stage, StageAfter(g, stage), final, paths, kept, false, last.ran)
  {
    if final.armed {
      ScriptRestores(final, g, last.touched);
    } else if !last.ran {
      if !Arms(stage) {
        StageSilent(g, stage);
      } else if !Caught(g, stage) {
        LateStage(g, stage);
      }
    }
  }

  /** So it is for every stage of every run from a quiet guest: the script a loose stage leaves is the one the invariant
      knows. */
  lemma ReachableAtomicity(guard: Guard, start: Guest, before: seq<Event>, stage: Event, later: seq<Event>)
    requires Quiet(start) && Legal(guard, start, before)
    requires var g := RunOf(guard, start, before);
      && Staged(guard, g, stage) && Sound(guard, g, stage) && stage.crash > 0
      && NoStage(guard, Step(guard, g, stage), later)
    ensures var g, h := RunOf(guard, start, before), Play(guard, start, Fresh(start), before);
      var s := Step(guard, g, stage);
      Outcome(g, stage, s, RunOf(guard, s, later), ScriptPaths(h), ScriptKept(h), SomeCommit(guard, s, later),
              SomeRun(guard, s, later))
  {
    var g, h := RunOf(guard, start, before), Play(guard, start, Fresh(start), before);
    RunKeeps(guard, start, Fresh(start), before);
    if Loose(g, stage) { ScriptKnown(g, h); }
    TwoPhaseAtomicity(guard, g, stage, later, ScriptPaths(h), ScriptKept(h));
  }

  /** Under a guard that asks for either the timer or the record, no stage goes loose, whatever went before, and a
      commit takes effect only behind a stage that recorded itself. */
  lemma EitherOneAtomicity(g: Guest, stage: Event, later: seq<Event>)
    requires Possible(g, stage) && Staged(EitherOne, g, stage) && stage.crash > 0
    requires NoStage(EitherOne, Step(EitherOne, g, stage), later)
    ensures !Loose(g, stage)
    ensures var s := Step(EitherOne, g, stage);
      && Outcome(g, stage, s, RunOf(EitherOne, s, later), [], map[], SomeCommit(EitherOne, s, later),
                 SomeRun(EitherOne, s, later))
      && (SomeCommit(EitherOne, s, later) ==> Recorded(g, stage))
  {
    var s := Step(EitherOne, g, stage);
    TwoPhaseAtomicity(EitherOne, g, stage, later, [], map[]);
    if !Recorded(g, stage) {
      UnrecordedStage(g, stage);
      NoRecordNoCommit(EitherOne, s, later);
    }
  }

  lemma UnrecordedStage(g: Guest, e: Event)
    requires Ready(g) && Possible(g, e) && e.Stage? && Accepts(e.req) && !Recorded(g, e)
    ensures StageAfter(g, e).transaction.None?
  {
    if Completes(e) { CompleteArms(e); }
    if !Arms(e) { EarlyStage(g, e); } else if Caught(g, e) { CaughtCount(g, e); } else { LateStage(g, e); }
  }

  /** What a caught stage leaves on record: itself, or nothing. */
  lemma CaughtCount(g: Guest, e: Event)
    requires !g.armed && Possible(g, e) && Caught(g, e) && Accepts(e.req)
    ensures StageAfter(g, e).transaction ==
      if Recorded(g, e) then Some(Transaction(e.id, e.req.revision)) else None
  {
    CaughtStage(g, e);
    CaughtSplit(g, e);
    if Validates(e.req, e.verdict) { ProgramSplit(e.req, e.listing, e.id); }
    WritesAreChanges(e.req, e.listing);
  }

  lemma {:induction false} NoRecordNoCommit(guard: Guard, g: Guest, events: seq<Event>)
    requires g.transaction.None? && NoStage(guard, g, events)
    ensures !SomeCommit(guard, g, events)
    decreases |events|
  {
    if events != [] {
      if events[0].TimerFires? { ScriptForgets(g.script, g); }
      NoRecordNoCommit(guard, Step(guard, g, events[0]), events[1..]);
    }
  }

  /** After a caught stage the old guest is back exactly when its script was run again or no write made behind the
      firing mattered. */
  lemma CaughtLeavesExactly(guard: Guard, g: Guest, stage: Event, later: seq<Event>)
    requires !g.armed && LinksMatch(g) && Possible(g, stage) && Staged(guard, g, stage) && Caught(g, stage)
    requires var s := Step(guard, g, stage);
      NoStage(guard, s, later) && !SomeCommit(guard, s, later)
    ensures SameLive(RunOf(guard, Step(guard, g, stage), later), g) <==>
      SomeRun(guard, Step(guard, g, stage), later) || AllIdle(Unguarded(g, stage), g)
  {
    var s := Step(guard, g, stage);
    CaughtStage(g, stage);
    StaysDown(guard, s, later);
    TwoPhaseAtomicity(guard, g, stage, later, [], map[]);
    if !SomeRun(guard, s, later) {
      CaughtExactly(g, stage);
    }
  }

  /** Asking a caught stage that recorded itself to roll back always brings the old guest back: its backups and its
      script are still there. */
  lemma CaughtRollsBack(guard: Guard, g: Guest, stage: Event, requested: Option<string>, stops: bool)
    requires !g.armed && LinksMatch(g) && Possible(g, stage) && Staged(guard, g, stage) && Caught(g, stage)
    requires RollsBack(Step(guard, g, stage), Rollback(requested, stops))
    ensures var r := Step(guard, Step(guard, g, stage), Rollback(requested, stops)); SameLive(r, g) && Quiet(r)
  {
    CaughtStage(g, stage);
    ScriptRestores(Step(guard, g, stage), g, Touched(stage.req, stage.listing));
  }

  lemma {:induction false} StaysDown(guard: Guard, g: Guest, events: seq<Event>)
    requires !g.armed && NoStage(guard, g, events)
    ensures !RunOf(guard, g, events).armed
    decreases |events|
  {
    if events != [] {
      if RollsBack(g, events[0]) { ScriptArmed(g.script, g); }
      StaysDown(guard, Step(guard, g, events[0]), events[1..]);
    }
  }

  lemma {:induction false} ScriptArmed(lines: seq<Line>, g: Guest)
    ensures RunScript(lines, g).0.armed == g.armed
    decreases |lines|
  {
    if lines != [] {
      match lines[0]
      case Copy(from, to) =>
        if from in g.backup {
          ScriptArmed(lines[1..], g.(files := g.files[to := g.backup[from]]));
        }
      case Remove(path) => ScriptArmed(lines[1..], g.(files := g.files - {path}));
      case DeleteLink(link) => ScriptArmed(lines[1..], g.(links := g.links - {link}));
      case ReloadNetwork => ScriptArmed(lines[1..], g.(links := g.links + LinksOf(g.files)));
      case RestartServices => ScriptArmed(lines[1..], g);
      case ForgetTransaction => ScriptArmed(lines[1..], g.(transaction := None));
    }
  }

  lemma {:induction false} ScriptForgets(lines: seq<Line>, g: Guest)
    requires g.transaction.None?
    ensures RunScript(lines, g).0.transaction.None?
    decreases |lines|
  {
    if lines != [] {
      match lines[0]
      case Copy(from, to) =>
        if from in g.backup {
          ScriptForgets(lines[1..], g.(files := g.files[to := g.backup[from]]));
        }
      case Remove(path) => ScriptForgets(lines[1..], g.(files := g.files - {path}));
      case DeleteLink(link) => ScriptForgets(lines[1..], g.(links := g.links - {link}));
      case ReloadNetwork => ScriptForgets(lines[1..], g.(links := g.links + LinksOf(g.files)));
      case RestartServices => ScriptForgets(lines[1..], g);
      case ForgetTransaction => ScriptForgets(lines[1..], g.(transaction := None));
    }
  }

  /** A commit takes effect behind a stage that recorded itself, under its identifier; behind any other only under the
      identifier of an older record, which the stage neither replaced nor lost to its own timer. */
  lemma CommitTakesEffect(guard: Guard, g: Guest, stage: Event, id: string, converged: bool, stops: bool)
    requires !g.armed && Possible(g, stage) && Staged(guard, g, stage)
    ensures Committed(Step(guard, g, stage), Commit(id, converged, stops)) <==>
      && converged
      && if Recorded(g, stage) then id == stage.id
         else !Caught(g, stage) && g.transaction.Some? && id == g.transaction.value.id
  {
    if Completes(stage) { CompleteArms(stage); }
    if !Arms(stage) {
      EarlyStage(g, stage);
    } else if Caught(g, stage) {
      CaughtCount(g, stage);
    } else {
      LateStage(g, stage);
    }
  }
}
