/** The Gateway guest as the applier sees it: state on disk that its operations update in place. */
module GatewayHost {
  import opened Base
  import opened GatewayPaths
  import opened GatewayGuest
  import opened GatewayProtocol
  import opened GatewayRuns

  datatype StageReply = StageReply(transactionId: string, revision: string, converged: bool, armed: bool)

  class GuestHost {
    var files: Files
    var backup: map<string, string>
    var script: seq<Line>
    var armed: bool
    var transaction: Option<Transaction>
    var links: set<string>

    ghost function Snapshot(): Guest
      reads this
    {
      Guest(files, backup, script, armed, transaction, links)
    }

    /** A freshly booted guest: managed files on disk, `/run` empty. */
    constructor (managed: Files)
      ensures Quiet(Snapshot()) && Snapshot().files == managed
    {
      files := managed;
      backup, script, armed, transaction := map[], [], false, None;
      links := LinksOf(managed);
    }

    method Perform(e: Effect)
      modifies this
      ensures Snapshot() == Do(old(Snapshot()), e)
    {
      match e
      case ClearDirectories => backup := map[];
      case Backup(path) => if path in files { backup := backup[BackupName(path) := files[path]]; }
      case WriteScript(paths) => script := ScriptFor(paths, backup);
      case Arm => armed := true;
      case Install(target, content) => files := files[target := content];
      case Unlink(victim) => files := files - {victim};
      case NetworkUp => links := links + LinksOf(files);
      case DropLink(link) => links := links - {link};
      case Record(t) => transaction := Some(t);
    }

    /** Performs the writes in order, with the timer elapsing behind the first `fire` of them, and dies in front of the
        first one it has no budget for. */
    method PerformAll(program: seq<Effect>, budget: nat, fire: Option<nat>) returns (died: bool)
      modifies this
      ensures died <==> budget < |program|
      ensures Snapshot() == RunFiring(old(Snapshot()), Cut(program, budget), fire)
    {
      ghost var g := Snapshot();
      var cut := Cut(program, budget);
      assert cut[..0] == [];
      for i := 0 to |cut|
        invariant Snapshot() == SoFar(g, cut, fire, i)
      {
        if fire == Some(i) {
          TimerElapses();
        }
        Perform(cut[i]);
        OneMore(g, cut, fire, i);
      }
      assert cut[..|cut|] == cut;
      if fire == Some(|cut|) {
        TimerElapses();
        assert cut[|cut|..] == [];
      }
      died := budget < |program|;
    }

    /** `/bin/sh rollback.sh`, stopping at the first failing copy. */
    method RunRollbackScript() returns (ok: bool)
      modifies this
      ensures RunScript(old(script), old(Snapshot())) == (Snapshot(), ok)
    {
      var lines := script;
      while lines != []
        invariant RunScript(old(script), old(Snapshot())) == RunScript(lines, Snapshot())
        decreases |lines|
      {
        match lines[0] {
          case Copy(from, to) =>
            if from !in backup {
              ok := false;
              return;
            }
            files := files[to := backup[from]];
          case Remove(path) => files := files - {path};
          case DeleteLink(link) => links := links - {link};
          case ReloadNetwork => links := links + LinksOf(files);
          case RestartServices =>
          case ForgetTransaction => transaction := None;
        }
        lines := lines[1..];
      }
      ok := true;
    }

    /** The writes of a stage, up to the one it dies in front of. */
    method RunStage(req: Request, listing: seq<Path>, verdict: bool, id: string, crash: nat, fire: Option<nat>)
      returns (finished: bool)
      modifies this
      ensures Snapshot() == StageAfter(old(Snapshot()), Stage(req, listing, verdict, id, crash, fire))
      ensures finished <==> Finishes(old(Snapshot()), Stage(req, listing, verdict, id, crash, fire))
    {
      var taken := armed && !(fire.Some? && fire.value <= |SilentPart(req, listing)|);
      var died := PerformAll(Program(req, listing, verdict, id, taken), crash, fire);
      finished := !died && Validates(req, verdict) && !taken;
    }

    /** Stage: no reply when the request is refused, a validator or `systemd-run` fails, or it dies. */
    method OperationStage(req: Request, listing: seq<Path>, verdict: bool, id: string, converged: bool, crash: nat,
                          fire: Option<nat>)
      returns (reply: Option<StageReply>)
      modifies this
      ensures Snapshot() == Step(AsWritten, old(Snapshot()), Stage(req, listing, verdict, id, crash, fire))
      ensures reply.Some? ==> reply.value == StageReply(id, req.revision, converged, armed)
      ensures old(armed) && old(transaction.Some?) ==> reply.None? && Snapshot() == old(Snapshot())
      ensures !old(armed) ==> (reply.Some? <==> Answers(req, listing, verdict, id, crash))
      ensures !old(armed) && Answers(req, listing, verdict, id, crash) && fire.None?
        && IsDictionary(req) && IsWalk(listing, old(files))
        ==> armed && files == Target(old(files), req) && transaction == Some(Transaction(id, req.revision))
    {
      reply := None;
      if !armed { AnswersExactly(Snapshot(), Stage(req, listing, verdict, id, crash, fire)); }
      if !Accepts(req) || (transaction.Some? && armed) {
        return;
      }
      ghost var g, e := Snapshot(), Stage(req, listing, verdict, id, crash, fire);
      var finished := RunStage(req, listing, verdict, id, crash, fire);
      if finished {
        reply := Some(StageReply(id, req.revision, converged, armed));
      }
      if !g.armed && finished && fire.None? && Possible(g, e) {
        CompleteArms(e);
        LateStage(g, e);
      }
    }

    /** Commit answers only for the recorded transaction, and only when the guest verifies as converged; stopping the
        timer is attempted, and its failure is only reported. */
    method OperationCommit(id: string, converged: bool, stops: bool) returns (ok: bool)
      modifies this
      ensures Snapshot() == Step(AsWritten, old(Snapshot()), Commit(id, converged, stops))
      ensures ok <==> old(transaction.Some? && transaction.value.id == id) && converged
      ensures ok ==> transaction.None? && backup == map[] && (armed <==> old(armed) && !stops)
      ensures files == old(files) && links == old(links) && script == old(script)
      ensures !ok ==> Snapshot() == old(Snapshot())
    {
      ok := transaction.Some? && transaction.value.id == id && converged;
      if ok {
        armed, backup, transaction := armed && !stops, map[], None;
      }
    }

    method OperationRollback(requested: Option<string>, stops: bool) returns (ok: bool)
      modifies this
      ensures Snapshot() == Step(AsWritten, old(Snapshot()), Rollback(requested, stops))
      ensures ok <==>
        && old(transaction.Some?)
        && (requested.None? || requested.value == "" || requested.value == old(transaction).value.id)
        && RunScript(old(script), old(Snapshot())).1
      ensures old(transaction.None?) ==> Snapshot() == old(Snapshot())
      ensures ok ==> files == RunScript(old(script), old(Snapshot())).0.files && (stops ==> !armed)
    {
      ok := transaction.Some? && (requested.Some? && requested.value != "" ==> requested.value == transaction.value.id);
      if ok {
        ok := RunRollbackScript();
        if ok {
          armed := armed && !stops;
        }
      }
    }

    /** The transient unit runs the script once, whatever its outcome, and is gone. */
    method TimerElapses()
      modifies this
      ensures Snapshot() == Elapsed(old(Snapshot()))
    {
      if armed {
        var _ := RunRollbackScript();
        armed := false;
      }
    }
  }

  /** On a guest whose timer does not run, what makes a stage answer: a revision of 64 hex digits, files on the
      allowlist, a bounded window, something a validator passed, and every write made. */
  ghost predicate Answers(req: Request, listing: seq<Path>, verdict: bool, id: string, crash: nat) {
    && |req.revision| == 64 && (forall c :: c in req.revision ==> '0' <= c <= '9' || 'a' <= c <= 'f')
    && req.files != map[] && (forall p :: p in req.files ==> Allowed(p))
    && 60 <= req.rollbackSeconds && req.rollbackSeconds <= 1800
    && verdict && !(req.files.Keys !! {NFTABLES_PATH, SQUID_PATH, DNSMASQ_PATH})
    && crash >= |Program(req, listing, true, id, false)|
  }

  lemma AnswersExactly(g: Guest, e: Event)
    requires e.Stage? && !g.armed
    ensures Answers(e.req, e.listing, e.verdict, e.id, e.crash) <==> Accepts(e.req) && Finishes(g, e)
  {
    RevisionExactly(e.req.revision);
    assert Accepts(e.req) ==> forall p :: p in e.req.files.Keys <==> p in e.req.files;
  }

  lemma RevisionExactly(s: string)
    ensures IsRevision(s) <==> |s| == 64 && forall c :: c in s ==> '0' <= c <= '9' || 'a' <= c <= 'f'
  {
    if IsRevision(s) {
      forall c | c in s ensures IsHex(c) {
        var i :| 0 <= i < |s| && s[i] == c;
      }
    } else if |s| == 64 {
      var i :| 0 <= i < 64 && !IsHex(s[i]);
      assert s[i] in s;
    }
  }

  /** The stage answers: it armed its own timer and made every write. */
  predicate Finishes(g: Guest, e: Event)
    requires e.Stage?
  {
    Validates(e.req, e.verdict) && !NameTaken(g, e) && e.crash >= |Program(e.req, e.listing, e.verdict, e.id, false)|
  }

  ghost function SoFar(g: Guest, cut: seq<Effect>, fire: Option<nat>, i: nat): Guest
    requires i <= |cut|
  {
    if fire.Some? && fire.value < i then Run(Elapsed(Run(g, cut[..fire.value])), cut[fire.value..i])
    else Run(g, cut[..i])
  }

  lemma OneMore(g: Guest, cut: seq<Effect>, fire: Option<nat>, i: nat)
    requires i < |cut|
    ensures var s := SoFar(g, cut, fire, i);
      SoFar(g, cut, fire, i + 1) == Do(if fire == Some(i) then Elapsed(s) else s, cut[i])
  {
    var from := if fire.Some? && fire.value <= i then fire.value else 0;
    var start := if fire.Some? && fire.value <= i then Elapsed(Run(g, cut[..fire.value])) else g;
    assert cut[from..i + 1] == cut[from..i] + [cut[i]];
    assert cut[..i + 1] == cut[0..i + 1] && cut[..i] == cut[0..i];
    RunAppend(start, cut[from..i], [cut[i]]);
    RunOne(Run(start, cut[from..i]), cut[i]);
    if fire == Some(i) { assert cut[i..i] == []; }
  }
}
