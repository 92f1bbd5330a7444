/** What the guard `existing and timer_active()` misses on the other side: a record without a timer. */
module GatewayStale {
  import opened Base
  import opened GatewayPaths
  import opened GatewayGuest
  import opened GatewayProtocol
  import opened GatewayCaught
  import opened GatewayHollow
  import opened GatewayRuns
  import opened GatewayHazard

  // ---- a rollback of the old transaction -----------------------------------------------------------

  /** A stage over an older record that makes at least one write and dies before it has a script of its own. */
  ghost predicate LooseStage(guard: Guard, g: Guest, e: Event) {
    e.Stage? && Possible(g, e) && Staged(guard, g, e) && Loose(g, e) && e.crash > 0
  }

  /** However such a stage dies, rolling the old transaction back afterwards leaves the guest as it was. */
  ghost predicate StaleHarmless(guard: Guard, g: Guest) {
    forall e: Event :: LooseStage(guard, g, e) ==>
      SameLive(Step(guard, Step(guard, g, e), Rollback(None, true)), g)
  }

  /** What the rollback takes away, for one such stage. */
  lemma StaleRollbackExact(guard: Guard, g: Guest, e: Event, paths: seq<Path>, kept: map<string, string>)
    requires !g.armed && LooseStage(guard, g, e) && AllAllowed(paths) && g.script == ScriptFor(paths, kept)
    ensures var s := Step(guard, g, e);
      var r := Step(guard, s, Rollback(None, true));
      && Hollow(s, paths, kept) && SameLive(s, g)
      && !r.armed && r.files == g.files - Swept(paths, kept, s.backup)
      && (LinksMatch(g) ==> LinksMatch(r))
      && (LinksMatch(g) ==> (SameLive(r, g) <==> Swept(paths, kept, s.backup) !! g.files.Keys))
  {
    var s := Step(guard, g, e);
    UnwrittenStage(g, e, paths, kept);
    Sweep(s, paths, kept);
    if LinksMatch(g) { SweepHarmlessExactly(s, paths, kept); }
  }

  /** The most that rollback can take away: paths that had been new, up to the first one it would have to copy back that
      is not there to be backed up again. */
  function SweptAtMost(paths: seq<Path>, kept: map<string, string>, files: Files): set<Path> {
    if paths == [] then {}
    else if BackupName(paths[0]) !in kept then {paths[0]} + SweptAtMost(paths[1..], kept, files)
    else if paths[0] in files then SweptAtMost(paths[1..], kept, files)
    else {}
  }

  lemma {:induction false} SweptBound(paths: seq<Path>, kept: map<string, string>, now: map<string, string>,
                                      files: Files)
    requires forall p :: p in paths && BackupName(p) in kept && BackupName(p) in now ==> p in files
    ensures Swept(paths, kept, now) <= SweptAtMost(paths, kept, files)
    ensures (forall p :: p in paths && BackupName(p) in kept && p in files ==> BackupName(p) in now) ==>
      Swept(paths, kept, now) == SweptAtMost(paths, kept, files)
  {
    if paths != [] {
      assert forall p :: p in paths <==> p == paths[0] || p in paths[1..];
      SweptBound(paths[1..], kept, now, files);
    }
  }

  /** The paths of the old script, each once, with the Squid file among them. */
  lemma OrderOver(paths: seq<Path>) returns (order: seq<Path>)
    requires AllAllowed(paths)
    ensures Distinct(order) && AllAllowed(order) && SQUID_PATH in order && forall p :: p in paths ==> p in order
  {
    order := SomeListing((set p | p in paths) + {SQUID_PATH});
    assert Allowed(SQUID_PATH);
    forall p | p in order ensures Allowed(p) { assert p in (set q | q in paths) + {SQUID_PATH}; }
  }

  /** A stage that backs up every path of the old script and dies in front of its own. */
  lemma FullPreparation(guard: Guard, g: Guest, paths: seq<Path>) returns (e: Event)
    requires guard != EitherOne && !g.armed && g.transaction.Some? && AllAllowed(paths)
    ensures LooseStage(guard, g, e)
    ensures forall p :: p in paths && p in g.files ==> BackupName(p) in Step(guard, g, e).backup
  {
    var order := OrderOver(paths);
    var req, listing := SomeChange(g, order);
    e := Stage(req, listing, true, "", |Prepare(req, listing)|, None);
    TouchedMembers(req, listing, g.files);
    PreparedBackup(g, SortStrings(req.order), Prune(req, listing));
    assert Cut(StageProgram(g, e), e.crash) == Prepare(req, listing);
    forall p | p in paths && p in g.files ensures BackupName(p) in Step(guard, g, e).backup {
      assert p in SortStrings(req.order) + Prune(req, listing);
    }
  }

  /**
   * On a guest without a timer, over a record that is still there, both guards that let a stage pass are harmless
   * exactly when nothing is there that a rollback of that record could then take away.
   */
  lemma StaleGuardExact(guard: Guard, g: Guest, paths: seq<Path>, kept: map<string, string>)
    requires guard != EitherOne && !g.armed && g.transaction.Some? && LinksMatch(g)
    requires AllAllowed(paths) && g.script == ScriptFor(paths, kept)
    ensures StaleHarmless(guard, g) <==> SweptAtMost(paths, kept, g.files) !! g.files.Keys
  {
    if SweptAtMost(paths, kept, g.files) !! g.files.Keys {
      forall e: Event | LooseStage(guard, g, e)
        ensures SameLive(Step(guard, Step(guard, g, e), Rollback(None, true)), g)
      {
        StaleRollbackExact(guard, g, e, paths, kept);
        SweptBound(paths, kept, Step(guard, g, e).backup, g.files);
      }
    } else {
      var e := FullPreparation(guard, g, paths);
      StaleRollbackExact(guard, g, e, paths, kept);
      SweptBound(paths, kept, Step(guard, g, e).backup, g.files);
      assert !StaleHarmless(guard, g);
    }
  }

  // ---- a commit of the old transaction ---------------------------------------------------------------

  /** The writes a stage that armed did not come to make. */
  function Remaining(g: Guest, e: Event): seq<Effect>
    requires !g.armed && Arms(e)
  {
    ArmedCut(g, e);
    Tail(e.req, e.listing, e.id)[MadeInAll(e)..]
  }

  /** Installing what is there, or removing what is not. */
  predicate FileIdle(e: Effect, files: Files) {
    match e
    case Install(target, content) => target in files && files[target] == content
    case Unlink(victim) => victim !in files
    case _ => true
  }

  predicate FilesIdle(effects: seq<Effect>, files: Files) {
    forall i :: 0 <= i < |effects| ==> FileIdle(effects[i], files)
  }

  lemma {:induction false} FilesIdleExactly(r: Guest, effects: seq<Effect>)
    requires Orderly(effects)
    ensures Run(r, effects).files == r.files <==> FilesIdle(effects, r.files)
    decreases |effects|
  {
    if effects != [] {
      var e, rest := effects[0], effects[1..];
      var next := Do(r, e);
      OrderlySlice(effects, 1, |effects|);
      assert effects[1..|effects|] == rest;
      assert forall i :: 0 <= i < |rest| ==> rest[i] == effects[i + 1] && Compatible(e, rest[i]);
      if FileIdle(e, r.files) {
        FileIdleDoes(r, e);
        FilesIdleExactly(next, rest);
      } else {
        FileKept(next, rest, FileOf(e).value);
      }
    }
  }

  lemma FileIdleDoes(r: Guest, e: Effect)
    requires InTail(e) && FileIdle(e, r.files)
    ensures Do(r, e).files == r.files
  {
    match e
    case Install(target, content) => assert r.files[target := content] == r.files;
    case Unlink(victim) => assert r.files - {victim} == r.files;
    case _ =>
  }

  lemma RemainingRun(g: Guest, e: Event)
    requires !g.armed && Arms(e) && !Completes(e) && !Caught(g, e)
    ensures Run(StageAfter(g, e), Remaining(g, e)) ==
      Run(g, SilentPart(e.req, e.listing) + ([Arm] + Tail(e.req, e.listing, e.id)))
  {
    var silent, tail, made := SilentPart(e.req, e.listing), Tail(e.req, e.listing, e.id), MadeInAll(e);
    StageUntilDeath(g, e);
    Rejoin(silent, tail, made);
    RunAppend(g, silent + ([Arm] + tail[..made]), tail[made..]);
  }

  lemma StageUntilDeath(g: Guest, e: Event)
    requires !g.armed && Arms(e) && !Caught(g, e)
    ensures MadeInAll(e) <= |Tail(e.req, e.listing, e.id)|
    ensures StageAfter(g, e) ==
      Run(g, SilentPart(e.req, e.listing) + ([Arm] + Tail(e.req, e.listing, e.id)[..MadeInAll(e)]))
  {
    ArmedCut(g, e);
    SilentWrites(e.req, e.listing);
    UnarmedElapse(g, Cut(StageProgram(g, e), e.crash), e.fire);
  }

  lemma Rejoin(silent: seq<Effect>, tail: seq<Effect>, made: nat)
    requires made <= |tail|
    ensures silent + ([Arm] + tail) == silent + ([Arm] + tail[..made]) + tail[made..]
  {
    assert tail == tail[..made] + tail[made..];
  }

  /** Making the remaining writes would have reached the target. */
  lemma RemainingReaches(g: Guest, e: Event)
    requires !g.armed && Possible(g, e) && Arms(e) && !Completes(e) && !Caught(g, e) && Accepts(e.req)
    ensures Run(StageAfter(g, e), Remaining(g, e)).files == Target(g.files, e.req)
  {
    RemainingRun(g, e);
    TailReaches(g, e);
  }

  lemma RemainingOrderly(g: Guest, e: Event)
    requires !g.armed && Possible(g, e) && Arms(e) && !Completes(e) && !Caught(g, e)
    ensures Orderly(Remaining(g, e))
  {
    var tail := Tail(e.req, e.listing, e.id);
    StageUntilDeath(g, e);
    TailOrderly(e.req, e.listing, e.id, g.files);
    OrderlySlice(tail, MadeInAll(e), |tail|);
    assert Remaining(g, e) == tail[MadeInAll(e)..|tail|];
  }

  /**
   * A stage that armed and died before recording itself can be committed under the identifier of the record it found.
   * The timer is stopped, the backups are gone, and the files stay as they are: the staged target exactly when every
   * write that was not made would have changed no file.
   */
  lemma StaleCommitExact(guard: Guard, g: Guest, e: Event, stops: bool)
    requires !g.armed && g.transaction.Some? && Possible(g, e) && Staged(guard, g, e)
    requires Arms(e) && !Completes(e) && !Caught(g, e)
    ensures var s, commit := Step(guard, g, e), Commit(g.transaction.value.id, true, stops);
      && s.armed && Committed(s, commit)
      && var final := Step(guard, s, commit);
         && final.files == s.files && final.backup == map[] && final.transaction.None? && (stops ==> !final.armed)
         && (final.files == Target(g.files, e.req) <==> FilesIdle(Remaining(g, e), s.files))
  {
    var s := Step(guard, g, e);
    LateStage(g, e);
    RemainingReaches(g, e);
    RemainingOrderly(g, e);
    FilesIdleExactly(s, Remaining(g, e));
  }

  // ---- both are reached ------------------------------------------------------------------------------

  /** A stage that outlives its timer, another one that dies behind its first write, and a rollback of what is on
      record: the file the first stage had added is gone, although it was on the guest before the second stage, is asked
      for by it, and nothing was committed. */
  lemma StaleRollbackReached(g: Guest) returns (first: Event, second: Event)
    requires Quiet(g) && SQUID_PATH !in g.files && forall p :: p in g.files ==> !Variable(p)
    ensures Possible(g, first) && Staged(AsWritten, g, first)
    ensures var pre := Step(AsWritten, g, first);
      && LooseStage(AsWritten, pre, second)
      && var final := Step(AsWritten, Step(AsWritten, pre, second), Rollback(None, true));
         && !final.armed && final.files != pre.files && final.files != Target(pre.files, second.req)
         && SQUID_PATH in pre.files && SQUID_PATH in second.req.files && SQUID_PATH !in final.files
  {
    first := StageOutlives(g);
    var pre := Step(AsWritten, g, first);
    var touched := Touched(first.req, first.listing);
    CaughtStage(g, first);
    OnlySquid(g, first);
    var req, listing := SomeChange(pre, [SQUID_PATH]);
    second := Stage(req, listing, true, "", 1, None);
    StaleRollbackExact(AsWritten, pre, second, touched, pre.backup);
    BackupIffPresent(pre.backup, g.files, touched, SQUID_PATH);
    assert SQUID_PATH in Swept(touched, pre.backup, Step(AsWritten, pre, second).backup);
    assert SQUID_PATH in first.req.files && SQUID_PATH in req.files;
  }

  lemma OnlySquid(g: Guest, e: Event)
    requires Possible(g, e) && e.Stage? && e.req.files.Keys == {SQUID_PATH} && forall p :: p in g.files ==> !Variable(p)
    ensures var touched := Touched(e.req, e.listing); touched != [] && touched[0] == SQUID_PATH
  {
    TouchedMembers(e.req, e.listing, g.files);
    PruneMembers(e.req, e.listing, g.files);
    var touched := Touched(e.req, e.listing);
    assert SQUID_PATH in e.req.files && SQUID_PATH in touched;
    assert touched[0] in touched && touched[0] in e.req.files.Keys;
  }

  /** A stage that outlives its timer, and another one that dies behind its first installation: committing what is on
      record takes effect, stops the timer, and keeps one of two files that were asked for together. */
  lemma StaleCommitReached(g: Guest) returns (first: Event, second: Event)
    requires Quiet(g)
    ensures Possible(g, first) && Staged(AsWritten, g, first)
    ensures var pre := Step(AsWritten, g, first);
      && pre.transaction.Some? && Possible(pre, second) && Staged(AsWritten, pre, second)
      && var s, commit := Step(AsWritten, pre, second), Commit(pre.transaction.value.id, true, true);
         && Committed(s, commit)
         && var final := Step(AsWritten, s, commit);
            && Ready(final) && final.backup == map[]
            && final.files != pre.files && final.files != Target(pre.files, second.req)
  {
    first := StageOutlives(g);
    var pre := Step(AsWritten, g, first);
    var req, listing := SomeChange(pre, [SQUID_PATH, NFTABLES_PATH]);
    second := Stage(req, listing, true, "", |SilentPart(req, listing)| + 2, None);
    OneInstalled(pre, second);
    StaleCommitExact(AsWritten, pre, second, true);
  }

  lemma OneInstalled(g: Guest, e: Event)
    requires !g.armed && e.Stage? && Possible(g, e) && e.fire.None? && Validates(e.req, e.verdict)
    requires e.req.order == [SQUID_PATH, NFTABLES_PATH] && e.crash == |SilentPart(e.req, e.listing)| + 2
    requires e.req.files == map p | p in e.req.order :: OtherContent(g.files, p)
    ensures Arms(e) && !Completes(e) && !Caught(g, e)
    ensures StageAfter(g, e).files != g.files && !FilesIdle(Remaining(g, e), StageAfter(g, e).files)
  {
    var order := SortStrings(e.req.order);
    SortStringsLists(e.req.order, e.req.files.Keys);
    TwoListed(order);
    FirstTwo(e);
    FirstMade(g, e);
    assert order[0] in order && order[1] in order;
  }

  /** Dying behind one installation leaves just that file. */
  lemma FirstMade(g: Guest, e: Event)
    requires !g.armed && Arms(e) && !Completes(e) && !Caught(g, e) && |SortStrings(e.req.order)| >= 2
    requires e.crash == |SilentPart(e.req, e.listing)| + 2
    ensures var order := SortStrings(e.req.order);
      && StageAfter(g, e).files == g.files[order[0] := Content(e.req.files, order[0])]
      && Remaining(g, e) != [] && Remaining(g, e)[0] == Install(order[1], Content(e.req.files, order[1]))
  {
    var silent, tail := SilentPart(e.req, e.listing), Tail(e.req, e.listing, e.id);
    FirstTwo(e);
    StageUntilDeath(g, e);
    assert tail[..1] == [tail[0]];
    PastArming(g, silent, [tail[0]]);
    ArmedLive(g, e.req, e.listing);
    RunOne(Do(Run(g, silent), Arm), tail[0]);
  }

  lemma TwoListed(order: seq<Path>)
    requires Distinct(order) && forall p :: p in order <==> p in {SQUID_PATH, NFTABLES_PATH}
    ensures |order| >= 2 && order[0] != order[1]
  {
    assert SQUID_PATH in order && NFTABLES_PATH in order && SQUID_PATH != NFTABLES_PATH;
  }

  lemma FirstTwo(e: Event)
    requires e.Stage? && Validates(e.req, e.verdict) && |SortStrings(e.req.order)| >= 2
    ensures var order, tail := SortStrings(e.req.order), Tail(e.req, e.listing, e.id);
      && |tail| >= 3 && tail[0] == Install(order[0], Content(e.req.files, order[0]))
      && tail[1] == Install(order[1], Content(e.req.files, order[1]))
      && |Program(e.req, e.listing, true, e.id, false)| == |SilentPart(e.req, e.listing)| + 1 + |tail|
  {
    ProgramSplit(e.req, e.listing, e.id);
    WritesAreChanges(e.req, e.listing);
  }
}
