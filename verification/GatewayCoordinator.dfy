/** The backend's side of the protocol: stage, prove over a second channel, then commit or abandon. */
module GatewayCoordinator {
  import opened Base
  import opened GatewayPaths
  import opened GatewayGuest
  import opened GatewayProtocol
  import opened GatewayCaught
  import opened GatewayRuns
  import opened GatewayHost

  /** Everything the network, the guest and the clock decide while one apply is under way. */
  datatype World = World(
    listing: seq<Path>, verdict: bool, id: string, stageConverged: bool, crash: nat,
    fire: Option<nat>,                // the timer elapsing while the stage still runs
    stageAnswer: Option<string>,      // the revision the answer names, or None when it is lost
    timerBeforeProof: bool,
    observation: Option<bool>,        // None when observing throws, else whether every check passed
    timerBeforeCommit: bool, commitArrives: bool, commitConverged: bool, commitStops: bool, commitAnswered: bool,
    timerBeforeRollback: bool, rollbackArrives: bool, rollbackStops: bool, rollbackAnswered: bool)

  datatype Outcome = Applied | StageFailed | Abandoned(rolledBack: bool) | CommitFailed | CommittedStillArmed

  ghost function StageOf(req: Request, world: World): Event {
    Stage(req, world.listing, world.verdict, world.id, world.crash, world.fire)
  }

  /** The answer of a stage that made every write. */
  ghost predicate StageAnswers(req: Request, world: World) {
    Answers(req, world.listing, world.verdict, world.id, world.crash)
  }

  /** What must have been seen before a commit is sent; `staged` is the guest as the stage left it. */
  predicate Proven(req: Request, world: World, staged: Guest) {
    && world.stageAnswer == Some(req.revision)
    && world.stageConverged && staged.armed
    && world.observation == Some(true)
  }

  /** A commit that was sent finds its record, and the guest agrees. */
  predicate TakesEffect(world: World) {
    !world.timerBeforeProof && !world.timerBeforeCommit && world.commitArrives && world.commitConverged
  }

  /** A commit took effect and could not stop the timer. */
  ghost predicate Stuck(now: Guest, g: Guest, req: Request, world: World) {
    now.armed && now.transaction.None? && now.files == Target(g.files, req) && !world.commitStops
  }

  /** However the apply of `req` over `g` went, this is all the guest can be left with, unless its stage was caught. An
      older record can only outlast an apply that sent no commit. */
  ghost predicate Settles(now: Guest, g: Guest, req: Request, world: World, commitSent: bool) {
    if now.armed then (Mended(Fire(now), g) && Ready(Fire(now))) || (commitSent && Stuck(now, g, req, world))
    else
      || (Mended(now, g) && (Ready(now) || (!commitSent && now.transaction == g.transaction)))
      || (commitSent && Ready(now) && now.files == Target(g.files, req) && (LinksMatch(g) ==> LinksMatch(now)))
  }

  /** What the driver goes on with once the stage has answered. */
  ghost predicate Answered(h: History) { h.hollow.None? && h.recorded }

  lemma InvSettles(now: Guest, h: History, req: Request, world: World, commitSent: bool)
    requires Inv(now, h) && Answered(h) && !h.caught && h.target == Target(h.base.files, req)
    requires h.committed ==> commitSent
    ensures Settles(now, h.base, req, world, commitSent)
  {
    if now.armed {
      ScriptRestores(now, h.base, h.touched);
    }
  }

  /** A stage that gave no answer, or none that arrived. */
  lemma StagedSettles(g: Guest, req: Request, world: World)
    requires !g.armed && Possible(g, StageOf(req, world)) && !CaughtApply(g, req, world)
    ensures Settles(StagedGuest(g, req, world), g, req, world, false)
  {
    var stage, s := StageOf(req, world), StagedGuest(g, req, world);
    if Accepts(req) {
      if Arms(stage) {
        LateStage(g, stage);
        ScriptRestores(s, g, Touched(stage.req, stage.listing));
      } else {
        EarlyStage(g, stage);
      }
    }
  }

  method Elapse(host: GuestHost, fires: bool, ghost h: History) returns (ghost after: History)
    requires Inv(host.Snapshot(), h) && !h.committed && h.hollow.None?
    modifies host
    ensures Inv(host.Snapshot(), after) && after == h.(ran := after.ran)
    ensures !fires || !old(host.armed) ==> host.Snapshot() == old(host.Snapshot()) && after == h
    ensures fires && old(host.armed) ==> Mended(host.Snapshot(), h.base) && Ready(host.Snapshot())
  {
    after := h;
    if fires {
      StepKeeps(AsWritten, host.Snapshot(), h, TimerFires);
      if host.armed { ScriptRestores(host.Snapshot(), h.base, h.touched); }
      after := Track(AsWritten, h, host.Snapshot(), TimerFires);
      host.TimerElapses();
    }
  }

  lemma RollbackMends(g: Guest, h: History, e: Event)
    requires Inv(g, h) && !h.committed && h.hollow.None? && e.Rollback?
    ensures var r := Step(AsWritten, g, e);
      && Inv(r, Track(AsWritten, h, g, e)) && Track(AsWritten, h, g, e) == h.(ran := h.ran || RollsBack(g, e))
      && (RollsBack(g, e) ==>
            RunScript(g.script, g).1 && Mended(r, h.base) && r.transaction.None? && (!g.armed ==> !r.armed))
  {
    StepKeeps(AsWritten, g, h, e);
    if RollsBack(g, e) {
      ScriptRestores(g, h.base, h.touched);
    }
  }

  /** A rollback is for what is on record; an empty identifier names any. */
  predicate Recognises(g: Guest, id: string) { g.transaction.Some? && (id == "" || id == g.transaction.value.id) }

  /** What a rollback leaves: the old guest if it found its record, and nothing new otherwise. */
  ghost predicate RolledBack(now: Guest, before: Guest, base: Guest, world: World) {
    if Recognises(before, world.id) then
      && Mended(now, base) && now.transaction.None? && (!before.armed ==> !now.armed)
      && now == Step(AsWritten, before, Rollback(Some(world.id), world.rollbackStops))
    else now == before
  }

  method SendRollback(host: GuestHost, world: World, ghost h: History) returns (done: bool, ghost after: History)
    requires Inv(host.Snapshot(), h) && !h.committed && h.hollow.None?
    modifies host
    ensures Inv(host.Snapshot(), after) && after == h.(ran := after.ran)
    ensures done <==> Recognises(old(host.Snapshot()), world.id)
    ensures RolledBack(host.Snapshot(), old(host.Snapshot()), h.base, world)
  {
    ghost var before := host.Snapshot();
    ghost var e := Rollback(Some(world.id), world.rollbackStops);
    RollbackMends(before, h, e);
    done := host.OperationRollback(Some(world.id), world.rollbackStops);
    after := Track(AsWritten, h, before, e);
  }

  /** Best effort: the answer says whether the guest rolled back; otherwise it is as it was, or as its timer left it. */
  method Abandon(host: GuestHost, world: World, ghost h: History) returns (rolledBack: bool, ghost after: History)
    requires Inv(host.Snapshot(), h) && !h.committed && h.hollow.None?
    modifies host
    ensures Inv(host.Snapshot(), after) && after == h.(ran := after.ran)
    ensures rolledBack <==>
      && world.rollbackArrives && world.rollbackAnswered && !(world.timerBeforeRollback && old(host.armed))
      && Recognises(old(host.Snapshot()), world.id)
    ensures world.timerBeforeRollback && old(host.armed) ==> Mended(host.Snapshot(), h.base) && Ready(host.Snapshot())
    ensures !(world.timerBeforeRollback && old(host.armed)) ==>
      if world.rollbackArrives then RolledBack(host.Snapshot(), old(host.Snapshot()), h.base, world)
      else host.Snapshot() == old(host.Snapshot())
  {
    rolledBack := false;
    after := Elapse(host, world.timerBeforeRollback, h);
    if world.rollbackArrives {
      rolledBack, after := SendRollback(host, world, after);
      rolledBack := rolledBack && world.rollbackAnswered;
    }
  }

  /** The stage has answered, its timer runs, and its record is there. */
  ghost predicate Awaiting(now: Guest, req: Request, world: World, h: History) {
    && Inv(now, h) && Answered(h) && !h.committed && !h.caught && !h.ran
    && h.target == Target(h.base.files, req)
    && now.armed && now.transaction == Some(Transaction(world.id, req.revision)) && now.files == h.target
  }

  /** The commit that was proved takes effect exactly when it arrives, the guest agrees and the record is still
      there. */
  method SendCommit(host: GuestHost, world: World, req: Request, ghost h: History) returns (committed: bool)
    requires Inv(host.Snapshot(), h) && Answered(h) && !h.committed && !h.caught
    requires h.target == Target(h.base.files, req)
    requires Awaiting(host.Snapshot(), req, world, h) || (Mended(host.Snapshot(), h.base) && Ready(host.Snapshot()))
    modifies host
    ensures Settles(host.Snapshot(), h.base, req, world, true)
    ensures committed <==> old(host.armed) && world.commitArrives && world.commitConverged
    ensures committed ==> host.files == h.target && host.transaction.None? && (host.armed <==> !world.commitStops)
    ensures !committed ==> host.Snapshot() == old(host.Snapshot())
  {
    committed := false;
    ghost var ready := host.Snapshot();
    if !world.commitArrives {
      InvSettles(ready, h, req, world, true);
      return;
    }
    ghost var e := Commit(world.id, world.commitConverged, world.commitStops);
    committed := host.OperationCommit(world.id, world.commitConverged, world.commitStops);
    if !committed || world.commitStops {
      StepKeeps(AsWritten, ready, h, e);
      InvSettles(host.Snapshot(), Track(AsWritten, h, ready, e), req, world, true);
    }
  }

  ghost function StagedGuest(g: Guest, req: Request, world: World): Guest {
    Step(AsWritten, g, StageOf(req, world))
  }

  /** The request is accepted and the timer elapses while its stage still runs. */
  ghost predicate CaughtApply(g: Guest, req: Request, world: World) {
    Accepts(req) && Caught(g, StageOf(req, world))
  }

  /** What a caught apply can be left with: mended by the rollback that was sent, or as the stage ended with a
      script that would still mend it. */
  ghost predicate CaughtSettles(now: Guest, g: Guest, req: Request, world: World, outcome: Outcome) {
    var s := StagedGuest(g, req, world);
    && Mended(RunScript(now.script, now).0, g)
    && (now == s || (Ready(now) && Mended(now, g)))
    && (outcome.Abandoned? && world.rollbackArrives && s.transaction.Some? ==> Ready(now) && Mended(now, g))
  }

  /** What an abandoned apply comes to; `finds` says whether the rollback finds the record of the stage. */
  ghost predicate AbandonedTo(now: Guest, staged: Guest, base: Guest, world: World, finds: bool) {
    if world.rollbackArrives && finds then Mended(now, base) && now.transaction.None?
    else if finds || !staged.armed then now == staged
    else Mended(now, base) && Ready(now)
  }

  predicate RollbackAnswers(world: World) { world.rollbackArrives && world.rollbackAnswered }

  /** What a commit that was sent comes to. */
  ghost predicate Sent(now: Guest, before: Guest, base: Guest, req: Request, world: World, outcome: Outcome) {
    if TakesEffect(world) then
      && now.files == Target(base.files, req) && now.transaction.None? && (now.armed <==> !world.commitStops)
      && outcome == (if !world.commitAnswered then CommitFailed else if world.commitStops then Applied
                     else CommittedStillArmed)
    else
      && outcome == CommitFailed
      && if world.timerBeforeProof || world.timerBeforeCommit then Mended(now, base) && Ready(now) else now == before
  }

  /** The proof over a second channel, on a guest that answered with its timer armed. */
  method ProveAndCommit(host: GuestHost, req: Request, world: World, ghost h: History)
    returns (outcome: Outcome, commitSent: bool)
    requires Awaiting(host.Snapshot(), req, world, h)
    modifies host
    ensures commitSent <==> world.observation == Some(true)
    ensures Settles(host.Snapshot(), h.base, req, world, commitSent)
    ensures commitSent ==> Sent(host.Snapshot(), old(host.Snapshot()), h.base, req, world, outcome)
    ensures !commitSent ==>
      && outcome == Abandoned(RollbackAnswers(world) && !world.timerBeforeProof && !world.timerBeforeRollback)
      && AbandonedTo(host.Snapshot(), old(host.Snapshot()), h.base, world,
                     !world.timerBeforeProof && !world.timerBeforeRollback)
  {
    ghost var now := Elapse(host, world.timerBeforeProof, h);
    if world.observation != Some(true) {
      var rolledBack, after := Abandon(host, world, now);
      InvSettles(host.Snapshot(), after, req, world, false);
      return Abandoned(rolledBack), false;
    }
    now := Elapse(host, world.timerBeforeCommit, now);
    var committed := SendCommit(host, world, req, now);
    if !committed || !world.commitAnswered {
      return CommitFailed, true;
    }
    return if host.armed then CommittedStillArmed else Applied, true;
  }

  lemma CaughtFacts(g: Guest, req: Request, world: World)
    requires !g.armed && CaughtApply(g, req, world) && Possible(g, StageOf(req, world))
    ensures var s := StagedGuest(g, req, world);
      && !s.armed && Mended(RunScript(s.script, s).0, g)
      && (s.transaction.Some? ==> s.transaction.value.id == world.id)
  {
    var stage := StageOf(req, world);
    CaughtStage(g, stage);
    CaughtCount(g, stage);
    ScriptRestores(StageAfter(g, stage), g, Touched(stage.req, stage.listing));
  }

  /** A stage that answered begins a history, whatever was on record before. */
  lemma StageAnswered(g: Guest, req: Request, world: World) returns (h: History)
    requires !g.armed && Possible(g, StageOf(req, world)) && StageAnswers(req, world)
    ensures Inv(StagedGuest(g, req, world), h) && h.hollow.None? && !h.committed && !h.ran
    ensures h.base == g && h.target == Target(g.files, req) && h.caught == Caught(g, StageOf(req, world))
    ensures !h.caught ==> Awaiting(StagedGuest(g, req, world), req, world, h)
    ensures var s := StagedGuest(g, req, world);
      && (s.armed <==> !h.caught)
      && (h.caught ==>
           s.transaction == if RecordOutlasts(req, world) then Some(Transaction(world.id, req.revision)) else None)
  {
    var stage := StageOf(req, world);
    AnswersExactly(g, stage);
    CompleteArms(stage);
    StageKeeps(g, stage, Fresh(g));
    h := Begun(g, stage, Fresh(g));
    if h.caught { CaughtRecord(g, req, world); } else { LateStage(g, stage); }
  }

  /** A stage that was caught has its record exactly when it made a write behind the firing, the last one being the
      record. */
  predicate RecordOutlasts(req: Request, world: World) {
    world.fire.Some? && world.fire.value < |Program(req, world.listing, true, world.id, false)|
  }

  lemma CaughtRecord(g: Guest, req: Request, world: World)
    requires !g.armed && Possible(g, StageOf(req, world)) && CaughtApply(g, req, world)
    requires Completes(StageOf(req, world))
    ensures var s := StagedGuest(g, req, world);
      && !s.armed
      && s.transaction == if RecordOutlasts(req, world) then Some(Transaction(world.id, req.revision)) else None
  {
    var stage := StageOf(req, world);
    CaughtStage(g, stage);
    CaughtCount(g, stage);
    ProgramSplit(req, world.listing, world.id);
    WritesAreChanges(req, world.listing);
  }

  predicate StillRecorded(staged: Guest, world: World) {
    staged.transaction.Some? && !(world.timerBeforeRollback && staged.armed)
  }

  /** The abandoning of a stage whose answer did not satisfy the driver. */
  method AbandonStage(host: GuestHost, req: Request, world: World, ghost g: Guest, ghost h: History)
    returns (rolledBack: bool)
    requires !g.armed && Possible(g, StageOf(req, world)) && host.Snapshot() == StagedGuest(g, req, world)
    requires Inv(host.Snapshot(), h) && !h.committed && !h.ran && h.base == g && h.target == Target(g.files, req)
    requires h.hollow.None? && (h.caught <==> CaughtApply(g, req, world))
    requires !h.caught ==> Awaiting(host.Snapshot(), req, world, h)
    modifies host
    ensures !CaughtApply(g, req, world) ==> Settles(host.Snapshot(), g, req, world, false)
    ensures CaughtApply(g, req, world) ==> CaughtSettles(host.Snapshot(), g, req, world, Abandoned(rolledBack))
    ensures rolledBack <==> RollbackAnswers(world) && StillRecorded(old(host.Snapshot()), world)
    ensures AbandonedTo(host.Snapshot(), old(host.Snapshot()), g, world, StillRecorded(old(host.Snapshot()), world))
  {
    ghost var s := host.Snapshot();
    ghost var after;
    rolledBack, after := Abandon(host, world, h);
    if h.caught {
      CaughtAbandoned(s, host.Snapshot(), g, req, world, h, rolledBack);
    } else {
      InvSettles(host.Snapshot(), after, req, world, false);
    }
  }

  lemma CaughtAbandoned(s: Guest, now: Guest, g: Guest, req: Request, world: World, h: History, rolledBack: bool)
    requires !g.armed && CaughtApply(g, req, world) && Possible(g, StageOf(req, world))
    requires s == StagedGuest(g, req, world)
    requires Inv(s, h) && h.caught && !h.committed && !h.ran && h.hollow.None? && h.base == g
    requires if world.rollbackArrives then RolledBack(now, s, g, world) else now == s
    ensures CaughtSettles(now, g, req, world, Abandoned(rolledBack))
    ensures AbandonedTo(now, s, g, world, StillRecorded(s, world))
  {
    CaughtFacts(g, req, world);
    if now != s {
      ScriptRestoresAgain(s, now, g, h);
    }
  }

  lemma ScriptRestoresAgain(s: Guest, now: Guest, g: Guest, h: History)
    requires Inv(s, h) && h.caught && !h.committed && !h.ran && h.hollow.None? && h.base == g
    requires exists e :: RollsBack(s, e) && now == Step(AsWritten, s, e)
    ensures Mended(RunScript(now.script, now).0, g)
  {
    ScriptRestores(s, g, h.touched);
    ScriptRestores(RunScript(s.script, s).0, g, h.touched);
  }

  /** Whether a rollback finds the record of the stage that is abandoned. */
  ghost predicate RollbackFinds(g: Guest, req: Request, world: World) {
    if CaughtApply(g, req, world) then RecordOutlasts(req, world)
    else !world.timerBeforeRollback && !(Gated(req, world) && world.timerBeforeProof)
  }

  /** The stage's own answer passes the driver's first two gates. */
  predicate Gated(req: Request, world: World) { world.stageAnswer == Some(req.revision) && world.stageConverged }

  /**
   * The guest has no timer; what it has on record does not matter. A commit is sent exactly when the stage answered,
   * its answer arrived, and it was proved; every outcome is named with its condition. Without a stage that outlived its
   * timer the guest settles. With one, no commit is sent: the rollback the driver sends brings the old guest back if it
   * arrives, and if it does not the guest is as the stage left it, with the script that would still restore it.
   */
  method ApplyGatewayPolicy(host: GuestHost, req: Request, world: World)
    returns (outcome: Outcome, commitSent: bool)
    requires !host.armed && IsDictionary(req) && IsWalk(world.listing, host.files)
    modifies host
    ensures commitSent <==>
      && StageAnswers(req, world) && !CaughtApply(old(host.Snapshot()), req, world)
      && world.stageAnswer == Some(req.revision) && world.stageConverged && world.observation == Some(true)
    ensures commitSent ==> Proven(req, world, StagedGuest(old(host.Snapshot()), req, world))
    ensures commitSent ==>
      Sent(host.Snapshot(), StagedGuest(old(host.Snapshot()), req, world), old(host.Snapshot()), req, world, outcome)
    ensures outcome == StageFailed <==> !StageAnswers(req, world) || world.stageAnswer.None?
    ensures outcome == StageFailed ==> host.Snapshot() == StagedGuest(old(host.Snapshot()), req, world)
    ensures !commitSent && outcome != StageFailed ==>
      && outcome == Abandoned(RollbackAnswers(world) && RollbackFinds(old(host.Snapshot()), req, world))
      && AbandonedTo(host.Snapshot(), StagedGuest(old(host.Snapshot()), req, world), old(host.Snapshot()), world,
                     RollbackFinds(old(host.Snapshot()), req, world))
    ensures !CaughtApply(old(host.Snapshot()), req, world) ==>
      Settles(host.Snapshot(), old(host.Snapshot()), req, world, commitSent)
    ensures CaughtApply(old(host.Snapshot()), req, world) ==>
      CaughtSettles(host.Snapshot(), old(host.Snapshot()), req, world, outcome)
  {
    ghost var g := host.Snapshot();
    var reply := host.OperationStage(
      req, world.listing, world.verdict, world.id, world.stageConverged, world.crash, world.fire);
    if CaughtApply(g, req, world) { CaughtFacts(g, req, world); } else { StagedSettles(g, req, world); }
    if reply.None? || world.stageAnswer.None? {
      return StageFailed, false;
    }
    outcome, commitSent := Proceed(host, req, world, reply.value, g);
  }

  /** From the answer on. */
  method Proceed(host: GuestHost, req: Request, world: World, reply: StageReply, ghost g: Guest)
    returns (outcome: Outcome, commitSent: bool)
    requires !g.armed && Possible(g, StageOf(req, world)) && StageAnswers(req, world)
    requires host.Snapshot() == StagedGuest(g, req, world) && world.stageAnswer.Some?
    requires reply.converged == world.stageConverged && reply.armed == host.armed
    modifies host
    ensures commitSent <==> Gated(req, world) && !CaughtApply(g, req, world) && world.observation == Some(true)
    ensures commitSent ==> Sent(host.Snapshot(), old(host.Snapshot()), g, req, world, outcome)
    ensures !commitSent ==>
      && outcome == Abandoned(RollbackAnswers(world) && RollbackFinds(g, req, world))
      && AbandonedTo(host.Snapshot(), old(host.Snapshot()), g, world, RollbackFinds(g, req, world))
    ensures !CaughtApply(g, req, world) ==> Settles(host.Snapshot(), g, req, world, commitSent)
    ensures CaughtApply(g, req, world) ==> CaughtSettles(host.Snapshot(), g, req, world, outcome)
    ensures old(host.armed) <==> !CaughtApply(g, req, world)
  {
    ghost var h := StageAnswered(g, req, world);
    AnswersExactly(g, StageOf(req, world));
    if world.stageAnswer.value != req.revision || !reply.converged || !reply.armed {
      var rolledBack := AbandonStage(host, req, world, g, h);
      return Abandoned(rolledBack), false;
    }
    outcome, commitSent := ProveAndCommit(host, req, world, h);
  }
}
