/** What the guard `existing and timer_active()` misses: a stage that died after arming, before its record. */
module GatewayHazard {
  import opened Base
  import opened GatewayPaths
  import opened GatewayGuest
  import opened GatewayProtocol
  import opened GatewayCaught
  import opened GatewayHollow
  import opened GatewayRuns

  /** A second stage that is over, wherever it dies, before the timer of the first one elapses. */
  ghost predicate SecondStage(g: Guest, e: Event) {
    e.Stage? && Possible(g, e) && e.fire.None?
  }

  /** No such stage changes the files that letting the timer fire will leave. */
  ghost predicate SecondStageHarmless(guard: Guard, g: Guest) {
    forall e: Event :: SecondStage(g, e) ==> Fire(Step(guard, g, e)).files == Fire(g).files
  }

  // ---- the exact condition --------------------------------------------------------------------------

  /** A second stage under an armed timer: at most the directories, the backups and the script. */
  lemma BlockedProgram(g: Guest, e: Event)
    requires g.armed && Staged(AsWritten, g, e) && e.fire.None?
    ensures var silent := SilentPart(e.req, e.listing);
      exists cut :: cut <= silent && Step(AsWritten, g, e) == Run(g, cut)
    ensures Validates(e.req, e.verdict) && e.crash > |Prepare(e.req, e.listing)| ==>
      Step(AsWritten, g, e) == Run(g, SilentPart(e.req, e.listing))
  {
    var silent := SilentPart(e.req, e.listing);
    var program := StageProgram(g, e);
    var cut := if e.crash < |program| then program[..e.crash] else program;
    assert program <= silent && cut <= silent;
    assert Step(AsWritten, g, e) == Run(g, cut);
    if Validates(e.req, e.verdict) {
      assert program == silent;
    }
  }

  lemma HarmlessWhenUntouched(g: Guest, before: Files, touched: seq<Path>, e: Event)
    requires g.armed && FilesProtected(g, before, touched) && g.files == before
    requires SecondStage(g, e)
    ensures Fire(Step(AsWritten, g, e)).files == before
  {
    ScriptRun(g, touched);
    RestoredFiles(g, before, touched);
    if Staged(AsWritten, g, e) {
      var prepare, touched2 := Prepare(e.req, e.listing), Touched(e.req, e.listing);
      BlockedProgram(g, e);
      var cut :| cut <= prepare + [WriteScript(touched2)] && Step(AsWritten, g, e) == Run(g, cut);
      if |cut| == |prepare| + 1 {
        assert cut == prepare + [WriteScript(touched2)];
        PreparedFiles(g, e.req, e.listing);
        ScriptRun(Run(g, cut), touched2);
        RestoredFiles(Run(g, cut), before, touched2);
      } else if cut != [] {
        PartlyPrepared(g, touched, e, cut);
      }
    }
  }

  lemma PartlyPrepared(g: Guest, touched: seq<Path>, e: Event, cut: seq<Effect>)
    requires FilesProtected(g, g.files, touched)
    requires e.Stage? && Possible(g, e) && Accepts(e.req)
    requires [ClearDirectories] <= cut <= Prepare(e.req, e.listing)
    ensures Fire(Run(g, cut)).files == g.files
  {
    var s := Run(g, cut);
    PreparingHollows(g, e, cut, touched, g.backup);
    Sweep(s, touched, g.backup);
    SweptMembers(touched, g.backup, s.backup);
    forall p | p in touched && BackupName(p) !in g.backup ensures p !in g.files {
      BackupIffPresent(g.backup, g.files, touched, p);
    }
    assert g.files - Swept(touched, g.backup, s.backup) == g.files;
  }

  lemma {:induction false} SomeListing(elements: set<Path>) returns (s: seq<Path>)
    ensures Lists(s, elements)
    decreases |elements|
  {
    if elements == {} {
      s := [];
    } else {
      var x :| x in elements;
      var rest := SomeListing(elements - {x});
      s := [x] + rest;
    }
  }

  /** A second stage over a path that is half way: it backs the half-way content up and cannot arm. */
  lemma SecondStageOver(g: Guest, p: Path) returns (e: Event)
    requires g.armed && g.transaction.None? && Allowed(p)
    ensures SecondStage(g, e) && Fire(Step(AsWritten, g, e)).files == g.files
  {
    var files: Files := map[p := "", SQUID_PATH := ""];
    var order := SomeListing(files.Keys);
    var listing := SomeListing(set q | q in g.files && Variable(q));
    var req := Request(seq(64, _ => '0'), order, files, 300);
    e := Stage(req, listing, true, "", |Prepare(req, listing)| + 1, None);
    assert p in req.files && Accepts(req);
    BlockedProgram(g, e);
    PreparedFiles(g, req, listing);
    ScriptRun(Step(AsWritten, g, e), Touched(req, listing));
    RestoredFiles(Step(AsWritten, g, e), g.files, Touched(req, listing));
  }

  /**
   * After a stage that died between arming and recording, the guard as written is harmless exactly
   * when that stage had not changed a file yet.
   */
  lemma GuardAsWrittenExact(g: Guest, h: History)
    requires Inv(g, h) && h.hollow.None? && g.armed && g.transaction.None?
    ensures SecondStageHarmless(AsWritten, g) <==> g.files == Fire(g).files
    ensures Fire(g).files == h.base.files
  {
    ScriptRestores(g, h.base, h.touched);
    if g.files == h.base.files {
      forall e: Event | SecondStage(g, e) ensures Fire(Step(AsWritten, g, e)).files == Fire(g).files {
        HarmlessWhenUntouched(g, h.base.files, h.touched, e);
      }
    } else {
      var e := SecondStageOver(g, SQUID_PATH);
      assert !SecondStageHarmless(AsWritten, g);
    }
  }

  ghost predicate SecondStages(guard: Guard, g: Guest, events: seq<Event>)
    decreases |events|
  {
    events == [] || (SecondStage(g, events[0]) && SecondStages(guard, Step(guard, g, events[0]), events[1..]))
  }

  /** With the timer tested no stage gets through to an armed guest, so any number of them is harmless. */
  lemma {:induction false} TimerAloneHarmless(guard: Guard, g: Guest, events: seq<Event>)
    requires g.armed && guard != AsWritten && SecondStages(guard, g, events)
    ensures RunOf(guard, g, events) == g
    decreases |events|
  {
    if events != [] {
      assert Step(guard, g, events[0]) == g;
      TimerAloneHarmless(guard, g, events[1..]);
    }
  }

  /** The harmful state is reached by any stage that changes something and dies just before its record. */
  lemma HazardReached(g: Guest, stage: Event)
    requires Quiet(g) && Possible(g, stage) && Staged(AsWritten, g, stage) && Validates(stage.req, stage.verdict)
    requires Target(g.files, stage.req) != g.files && stage.fire.None?
    requires stage.crash == |Program(stage.req, stage.listing, true, stage.id, false)| - 1
    ensures var s := Step(AsWritten, g, stage);
      s.armed && s.transaction.None? && s.files != Fire(s).files && !SecondStageHarmless(AsWritten, s)
  {
    var req, listing := stage.req, stage.listing;
    var silent, tail := SilentPart(req, listing), Tail(req, listing, stage.id);
    var s := Step(AsWritten, g, stage);
    ProgramSplit(req, listing, stage.id);
    WritesAreChanges(req, listing);
    assert |Program(req, listing, true, stage.id, false)| == |silent| + 1 + |tail|;
    LateStage(g, stage);
    ArmedCut(g, stage);
    assert tail[..|tail| - 1] == Changes(req, listing);
    RunAppend(g, silent, [Arm] + Changes(req, listing));
    PreparedFiles(g, req, listing);
    CompleteWrites(Run(g, silent), g, req, listing);
    StageKeeps(g, stage, Fresh(g));
    GuardAsWrittenExact(s, Begun(g, stage, Fresh(g)));
  }

  // ---- what the guard does see to ------------------------------------------------------------------------

  /** Behind a stage that recorded itself, however many more are asked for and wherever they would die, nothing moves,
      and the timer or a rollback still gives back the guest from before it. */
  lemma StackedStages(g: Guest, stage: Event, more: seq<Event>, stops: bool)
    requires !g.armed && Possible(g, stage) && stage.Stage? && Accepts(stage.req)
    requires Completes(stage) && !Caught(g, stage) && forall i :: 0 <= i < |more| ==> more[i].Stage?
    ensures var s := Step(AsWritten, g, stage);
      && s.armed && s.transaction.Some? && RunOf(AsWritten, s, more) == s
      && Mended(Step(AsWritten, s, TimerFires), g) && Mended(Step(AsWritten, s, Rollback(None, stops)), g)
  {
    var s := Step(AsWritten, g, stage);
    CompleteArms(stage);
    LateStage(g, stage);
    AllRefused(s, more);
    EitherMends(s, g, Touched(stage.req, stage.listing), stops);
  }

  lemma EitherMends(s: Guest, g: Guest, touched: seq<Path>, stops: bool)
    requires s.armed && s.transaction.Some? && Protected(s, g, touched)
    ensures Mended(Step(AsWritten, s, TimerFires), g) && Mended(Step(AsWritten, s, Rollback(None, stops)), g)
  {
    ScriptRestores(s, g, touched);
  }

  lemma {:induction false} AllRefused(g: Guest, more: seq<Event>)
    requires g.armed && g.transaction.Some? && forall i :: 0 <= i < |more| ==> more[i].Stage?
    ensures RunOf(AsWritten, g, more) == g
    decreases |more|
  {
    if more != [] {
      assert Step(AsWritten, g, more[0]) == g;
      assert forall i :: 0 <= i < |more[1..]| ==> more[1..][i] == more[i + 1];
      AllRefused(g, more[1..]);
    }
  }

  // ---- a stage that outlives its timer ---------------------------------------------------------------

  function OtherContent(files: Files, p: Path): string {
    if p in files && files[p] == "" then "x" else ""
  }

  /** Any allowed paths, the Squid file among them, can be requested with content they do not have. */
  lemma SomeChange(g: Guest, order: seq<Path>) returns (req: Request, listing: seq<Path>)
    requires Distinct(order) && AllAllowed(order) && SQUID_PATH in order
    ensures req.order == order && req.files == map p | p in order :: OtherContent(g.files, p)
    ensures Accepts(req) && IsDictionary(req) && IsWalk(listing, g.files) && Validates(req, true)
  {
    listing := SomeListing(set q | q in g.files && Variable(q));
    req := Request(seq(64, _ => '0'), order, map p | p in order :: OtherContent(g.files, p), 60);
    assert SQUID_PATH in req.files;
  }

  /** On every quiet guest some accepted stage, caught right behind its arming, ends with new content, with the record
      of a transaction, and without a timer. */
  lemma StageOutlives(g: Guest) returns (e: Event)
    requires Quiet(g)
    ensures Possible(g, e) && Staged(AsWritten, g, e) && Caught(g, e) && e.req.files.Keys == {SQUID_PATH}
    ensures var s := Step(AsWritten, g, e);
      !s.armed && s.transaction.Some? && LinksMatch(s) && s.files == Target(g.files, e.req) != g.files
    ensures !AllIdle(Unguarded(g, e), g)
  {
    var req, listing := SquidChange(g);
    e := CaughtBehindArming(g, req, listing);
    Outlives(g, e);
  }

  lemma SquidChange(g: Guest) returns (req: Request, listing: seq<Path>)
    ensures Accepts(req) && IsDictionary(req) && IsWalk(listing, g.files) && Validates(req, true)
    ensures req.files.Keys == {SQUID_PATH} && Target(g.files, req) != g.files
  {
    req, listing := SomeChange(g, [SQUID_PATH]);
    assert SQUID_PATH in req.order;
    NewContent(g, req, SQUID_PATH);
  }

  lemma NewContent(g: Guest, req: Request, p: Path)
    requires p in req.files && req.files[p] == OtherContent(g.files, p)
    ensures Target(g.files, req) != g.files
  {
    assert Target(g.files, req)[p] == req.files[p];
  }

  lemma Outlives(g: Guest, e: Event)
    requires Quiet(g) && Possible(g, e) && Caught(g, e) && Accepts(e.req) && Completes(e) && MadeBefore(e) == 0
    requires Target(g.files, e.req) != g.files
    ensures var s := StageAfter(g, e);
      !s.armed && s.transaction.Some? && LinksMatch(s) && s.files == Target(g.files, e.req)
    ensures !AllIdle(Unguarded(g, e), g)
  {
    CaughtAtOnce(g, e);
    CaughtExactly(g, e);
  }

  lemma CaughtBehindArming(g: Guest, req: Request, listing: seq<Path>) returns (e: Event)
    requires !g.armed && Validates(req, true)
    ensures e.Stage? && e.req == req && e.listing == listing && Caught(g, e) && Completes(e) && MadeBefore(e) == 0
  {
    var silent, tail := SilentPart(req, listing), Tail(req, listing, "");
    e := Stage(req, listing, true, "", |silent| + 1 + |tail|, Some(|silent| + 1));
    ProgramSplit(req, listing, "");
    WritesAreChanges(req, listing);
  }

  // ---- a commit that leaves its timer running --------------------------------------------------------

  /** A commit that could not stop its timer has thrown the backups away: firing then removes the newly added files that
      lead the script, so the committed files survive exactly when none of those is there. */
  lemma StuckTimerSweeps(g: Guest, h: History, id: string)
    requires Inv(g, h) && g.armed && Committed(g, Commit(id, true, false))
    ensures var stuck := Step(AsWritten, g, Commit(id, true, false));
      && stuck.armed && stuck.transaction.None? && stuck.files == g.files
      && Fire(stuck).files == g.files - Swept(h.touched, h.saved, map[])
      && (Fire(stuck).files == g.files <==> Swept(h.touched, h.saved, map[]) !! g.files.Keys)
  {
    var stuck, swept := Step(AsWritten, g, Commit(id, true, false)), Swept(h.touched, h.saved, map[]);
    StuckKeeps(g, h);
    Sweep(stuck, h.touched, h.saved);
    if swept !! g.files.Keys {
      assert g.files - swept == g.files;
    } else {
      var p :| p in swept && p in g.files;
      assert p !in g.files - swept;
    }
  }

  /** For a stage that ran on to its commit, they survive exactly when the first touched path had existed before. */
  lemma StuckTimerExact(g: Guest, h: History, id: string)
    requires Inv(g, h) && g.armed && Committed(g, Commit(id, true, false))
    requires h.touched != [] && (h.touched[0] in h.base.files || h.touched[0] in g.files)
    ensures Fire(Step(AsWritten, g, Commit(id, true, false))).files == g.files <==> h.touched[0] in h.base.files
  {
    StuckTimerSweeps(g, h, id);
    BackupIffPresent(g.backup, h.base.files, h.touched, h.touched[0]);
    if h.touched[0] in h.base.files {
      assert Swept(h.touched, h.saved, map[]) == {};
    } else {
      assert h.touched[0] in Swept(h.touched, h.saved, map[]);
    }
  }

  // ---- a reboot --------------------------------------------------------------------------------------

  /** `/run` is empty after a reboot and networkd rebuilds its links; the managed files stay. */
  function Reboot(g: Guest): Guest {
    g.(backup := map[], script := [], armed := false, transaction := None, links := LinksOf(g.files))
  }

  /** A reboot forgets the promise: the guest is ready again, but keeps whatever was half installed. */
  lemma RebootForgets(g: Guest, h: History)
    requires Inv(g, h) && h.hollow.None? && g.armed
    ensures Quiet(Reboot(g))
    ensures Reboot(g).files == Fire(g).files <==> g.files == h.base.files
  {
    ScriptRestores(g, h.base, h.touched);
  }
}
