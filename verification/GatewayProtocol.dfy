/** Every run of the two-phase protocol ends in the files from before or the files that were staged. */
module GatewayProtocol {
  import opened Base
  import opened GatewayPaths
  import opened GatewayGuest

  // ---- membership of the path lists -------------------------------------------------------------

  lemma {:induction false} WithoutMembers(paths: seq<Path>, files: Files)
    ensures forall p :: p in Without(paths, files) <==> p in paths && p !in files
  {
    if paths != [] {
      WithoutMembers(paths[1..], files);
      assert forall p :: p in paths <==> p == paths[0] || p in paths[1..];
    }
  }

  lemma SortedMembers(s: seq<string>)
    ensures forall x :: x in SortStrings(s) <==> x in s
  {
    SortStringsKeeps(s);
    forall x ensures x in SortStrings(s) <==> x in s {
      assert x in multiset(SortStrings(s)) <==> x in multiset(s);
    }
  }

  lemma PruneMembers(req: Request, listing: seq<Path>, files: Files)
    requires IsWalk(listing, files)
    ensures forall p :: p in Prune(req, listing) <==> p in files && Variable(p) && p !in req.files
  {
    SortedMembers(listing);
    WithoutMembers(SortStrings(listing), req.files);
  }

  lemma TouchedMembers(req: Request, listing: seq<Path>, files: Files)
    requires IsDictionary(req) && IsWalk(listing, files)
    ensures forall p :: p in SortStrings(req.order) <==> p in req.files
    ensures forall p :: p in Touched(req, listing) <==> p in req.files || p in Prune(req, listing)
    ensures Accepts(req) ==> AllAllowed(Touched(req, listing))
  {
    SortedMembers(req.order);
    SortedMembers(req.order + Prune(req, listing));
    PruneMembers(req, listing, files);
  }

  // ---- writes made under the timer keep the guest restorable ------------------------------------

  ghost predicate Guarded(e: Effect, touched: seq<Path>) {
    match e
    case Install(target, _) => target in touched
    case Unlink(victim) => victim in touched
    case DropLink(link) => exists p :: p in touched && LinkOf(p) == Some(link)
    case Arm | NetworkUp | Record(_) => true
    case _ => false
  }

  lemma GuardedStep(s: Guest, base: Guest, touched: seq<Path>, e: Effect)
    requires Protected(s, base, touched) && Guarded(e, touched)
    ensures Protected(Do(s, e), base, touched)
  {
    if e.NetworkUp? && LinksMatch(base) {
      forall link | forall p :: p in touched ==> LinkOf(p) != Some(link)
        ensures link in Do(s, e).links <==> link in base.links
      {
        if link in LinksOf(s.files) {
          var q :| q in s.files && LinkOf(q) == Some(link);
          assert q in base.files;
        }
      }
    }
  }

  lemma {:induction false} GuardedRun(s: Guest, base: Guest, touched: seq<Path>, effects: seq<Effect>)
    requires Protected(s, base, touched)
    requires forall i :: 0 <= i < |effects| ==> Guarded(effects[i], touched)
    ensures Protected(Run(s, effects), base, touched)
    decreases |effects|
  {
    if effects != [] {
      GuardedStep(s, base, touched, effects[0]);
      GuardedRun(Do(s, effects[0]), base, touched, effects[1..]);
    }
  }

  lemma {:induction false} UnrecordedRun(s: Guest, effects: seq<Effect>)
    requires forall i :: 0 <= i < |effects| ==> !effects[i].Record?
    ensures Run(s, effects).transaction == s.transaction
    decreases |effects|
  {
    if effects != [] {
      UnrecordedRun(Do(s, effects[0]), effects[1..]);
    }
  }

  lemma {:induction false} DropsGuarded(paths: seq<Path>, touched: seq<Path>)
    requires forall p :: p in paths ==> p in touched
    ensures forall i :: 0 <= i < |Drops(paths)| ==> Drops(paths)[i].DropLink? && Guarded(Drops(paths)[i], touched)
  {
    if paths != [] {
      assert paths[0] in paths;
      DropsGuarded(paths[1..], touched);
    }
  }

  ghost predicate AllGuarded(effects: seq<Effect>, touched: seq<Path>) {
    forall i :: 0 <= i < |effects| ==> !effects[i].Record? && Guarded(effects[i], touched)
  }

  lemma GuardedAppend(a: seq<Effect>, b: seq<Effect>, touched: seq<Path>)
    requires AllGuarded(a, touched) && AllGuarded(b, touched)
    ensures AllGuarded(a + b, touched)
  { }

  lemma WritesGuarded(req: Request, listing: seq<Path>, files: Files)
    requires IsDictionary(req) && IsWalk(listing, files)
    ensures AllGuarded(Writes(req, listing), Touched(req, listing))
  {
    var order, prune, touched := SortStrings(req.order), Prune(req, listing), Touched(req, listing);
    var installs, unlinks, reloads := Installs(order, req.files), Unlinks(prune), Reloads(req, listing);
    assert AllGuarded(installs, touched) && AllGuarded(unlinks, touched) by {
      TouchedMembers(req, listing, files);
    }
    assert AllGuarded(reloads, touched) by {
      TouchedMembers(req, listing, files);
      DropsGuarded(prune, touched);
      GuardedAppend([NetworkUp], Drops(prune), touched);
    }
    GuardedAppend([Arm], installs, touched);
    GuardedAppend([Arm] + installs, unlinks, touched);
    GuardedAppend([Arm] + installs + unlinks, reloads, touched);
  }

  lemma PreparedBackup(g: Guest, order: seq<Path>, prune: seq<Path>)
    requires AllAllowed(order) && AllAllowed(prune)
    ensures BackedUp(Run(g, [ClearDirectories] + Backups(order) + Backups(prune)).backup, g.files, order + prune)
  {
    var cleared := Do(g, ClearDirectories);
    var once := Run(cleared, Backups(order));
    RunAppend(g, [ClearDirectories] + Backups(order), Backups(prune));
    RunAppend(g, [ClearDirectories], Backups(order));
    assert Run(g, [ClearDirectories]) == cleared;
    SilentRun(cleared, Backups(order));
    BackupsRun(cleared, [], order);
    assert [] + order == order;
    BackupsRun(once, order, prune);
  }

  lemma PrepareSilent(g: Guest, req: Request, listing: seq<Path>)
    ensures var s := Run(g, Prepare(req, listing));
      SameLive(s, g) && s.armed == g.armed && s.transaction == g.transaction
  {
    SilentRun(g, Prepare(req, listing));
  }

  lemma PreparedFiles(g: Guest, req: Request, listing: seq<Path>)
    requires IsDictionary(req) && IsWalk(listing, g.files) && Accepts(req)
    ensures var s := Run(g, Prepare(req, listing) + [WriteScript(Touched(req, listing))]);
      && FilesProtected(s, g.files, Touched(req, listing))
      && SameLive(s, g) && s.armed == g.armed && s.transaction == g.transaction
  {
    var order, prune, touched := SortStrings(req.order), Prune(req, listing), Touched(req, listing);
    var s := Run(g, Prepare(req, listing));
    TouchedMembers(req, listing, g.files);
    assert BackedUp(s.backup, g.files, touched) by {
      assert AllAllowed(order) && AllAllowed(prune);
      PreparedBackup(g, order, prune);
      SameDone(s.backup, g.files, order + prune, touched);
    }
    PrepareSilent(g, req, listing);
    RunAppend(g, Prepare(req, listing), [WriteScript(touched)]);
    assert Run(s, [WriteScript(touched)]) == Do(s, WriteScript(touched));
  }

  /** Once the script is written the guest is restorable. */
  lemma PreparedProtected(g: Guest, req: Request, listing: seq<Path>)
    requires IsDictionary(req) && IsWalk(listing, g.files) && Accepts(req)
    ensures var s := Run(g, Prepare(req, listing) + [WriteScript(Touched(req, listing))]);
      && Protected(s, g, Touched(req, listing)) && SameLive(s, g)
      && s.transaction == g.transaction && s.armed == g.armed
  {
    PreparedFiles(g, req, listing);
  }

  lemma SameDone(backup: map<string, string>, files: Files, a: seq<Path>, b: seq<Path>)
    requires BackedUp(backup, files, a)
    requires forall p :: p in a <==> p in b
    ensures BackedUp(backup, files, b)
  { }

  // ---- a stage that runs to the end ---------------------------------------------------------------

  /** What the managed files are meant to become: old ones minus the pruned, overwritten by the staged. */
  ghost function Target(files: Files, req: Request): Files {
    (map p | p in files && (Variable(p) ==> p in req.files) :: files[p]) + req.files
  }

  function Contents(paths: seq<Path>, files: Files): Files {
    map p | p in paths :: Content(files, p)
  }

  lemma ContentsStep(before: Files, paths: seq<Path>, files: Files)
    requires paths != []
    ensures before[paths[0] := Content(files, paths[0])] + Contents(paths[1..], files) ==
      before + Contents(paths, files)
  {
    assert forall p :: p in paths <==> p == paths[0] || p in paths[1..];
  }

  lemma {:induction false} InstallsRun(g: Guest, paths: seq<Path>, files: Files)
    ensures Run(g, Installs(paths, files)) == g.(files := g.files + Contents(paths, files))
    decreases |paths|
  {
    if paths == [] {
      assert g.files + Contents(paths, files) == g.files;
    } else {
      var next := Do(g, Install(paths[0], Content(files, paths[0])));
      assert Installs(paths, files)[1..] == Installs(paths[1..], files);
      InstallsRun(next, paths[1..], files);
      ContentsStep(g.files, paths, files);
    }
  }

  lemma {:induction false} UnlinksRun(g: Guest, paths: seq<Path>)
    ensures Run(g, Unlinks(paths)) == g.(files := g.files - set p | p in paths)
    decreases |paths|
  {
    if paths == [] {
      assert g.files - (set p | p in paths) == g.files;
    } else {
      var next := Do(g, Unlink(paths[0]));
      assert Unlinks(paths)[1..] == Unlinks(paths[1..]);
      UnlinksRun(next, paths[1..]);
      assert (set p | p in paths) == {paths[0]} + set p | p in paths[1..];
      assert next.files - (set p | p in paths[1..]) == g.files - set p | p in paths;
    }
  }

  ghost predicate Dropped(paths: seq<Path>, link: string) {
    exists p :: p in paths && LinkOf(p) == Some(link)
  }

  lemma {:induction false} DropsRun(g: Guest, paths: seq<Path>)
    ensures var s := Run(g, Drops(paths));
      s == g.(links := s.links) && forall link :: link in s.links <==> link in g.links && !Dropped(paths, link)
    decreases |paths|
  {
    if paths != [] {
      var first := if LinkOf(paths[0]).Some? then [DropLink(LinkOf(paths[0]).value)] else [];
      RunAppend(g, first, Drops(paths[1..]));
      DropFirst(g, paths[0]);
      DropsRun(Run(g, first), paths[1..]);
      forall link { DroppedFirst(paths, link); }
    }
  }

  lemma DropFirst(g: Guest, p: Path)
    ensures var s := Run(g, if LinkOf(p).Some? then [DropLink(LinkOf(p).value)] else []);
      s == g.(links := s.links) && forall link :: link in s.links <==> link in g.links && LinkOf(p) != Some(link)
  {
    if LinkOf(p).Some? {
      RunOne(g, DropLink(LinkOf(p).value));
    }
  }

  lemma DroppedFirst(paths: seq<Path>, link: string)
    requires paths != []
    ensures Dropped(paths, link) <==> LinkOf(paths[0]) == Some(link) || Dropped(paths[1..], link)
  {
    assert forall p :: p in paths <==> p == paths[0] || p in paths[1..];
  }

  lemma TargetReached(files: Files, req: Request, order: seq<Path>, prune: seq<Path>)
    requires forall p :: p in order <==> p in req.files
    requires forall p :: p in prune <==> p in files && Variable(p) && p !in req.files
    ensures files + Contents(order, req.files) - (set p | p in prune) == Target(files, req)
  { }

  lemma CompleteWrites(s: Guest, base: Guest, req: Request, listing: seq<Path>)
    requires IsDictionary(req) && IsWalk(listing, base.files)
    requires SameLive(s, base)
    ensures var r := Run(s, Writes(req, listing));
      r.files == Target(base.files, req) && (LinksMatch(base) ==> LinksMatch(r))
  {
    var order, prune := SortStrings(req.order), Prune(req, listing);
    var installs, unlinks := Installs(order, req.files), Unlinks(prune);
    var a := Run(s, [Arm] + installs);
    assert a == s.(armed := true, files := s.files + Contents(order, req.files)) by {
      RunAppend(s, [Arm], installs);
      assert Run(s, [Arm]) == Do(s, Arm);
      InstallsRun(Do(s, Arm), order, req.files);
    }
    var b := Run(s, [Arm] + installs + unlinks);
    assert b == a.(files := a.files - set p | p in prune) by {
      RunAppend(s, [Arm] + installs, unlinks);
      UnlinksRun(a, prune);
    }
    assert b.files == Target(base.files, req) by {
      TouchedMembers(req, listing, base.files);
      PruneMembers(req, listing, base.files);
      TargetReached(base.files, req, order, prune);
    }
    RunAppend(s, [Arm] + installs + unlinks, Reloads(req, listing));
    ReloadsMatch(b, base, req, listing);
  }

  lemma ReloadsRun(b: Guest, req: Request, listing: seq<Path>)
    requires TouchesNetwork(Touched(req, listing))
    ensures Run(b, Reloads(req, listing)) == Run(Do(b, NetworkUp), Drops(Prune(req, listing)))
  {
    RunAppend(b, [NetworkUp], Drops(Prune(req, listing)));
    assert [NetworkUp][1..] == [];
  }

  lemma ReloadsMatch(b: Guest, base: Guest, req: Request, listing: seq<Path>)
    requires IsDictionary(req) && IsWalk(listing, base.files)
    requires b.files == Target(base.files, req) && b.links == base.links
    ensures var r := Run(b, Reloads(req, listing)); r.files == b.files && (LinksMatch(base) ==> LinksMatch(r))
  {
    var prune := Prune(req, listing);
    PruneMembers(req, listing, base.files);
    if TouchesNetwork(Touched(req, listing)) {
      ReloadsRun(b, req, listing);
      DropsMatch(b, base, req, prune);
    } else {
      assert Run(b, Reloads(req, listing)) == b;
      if LinksMatch(base) {
        forall link ensures link in base.links <==> link in LinksOf(b.files) {
          NetworkUntouched(b, base, req, listing, link);
        }
      }
    }
  }

  lemma DropsMatch(b: Guest, base: Guest, req: Request, prune: seq<Path>)
    requires b.files == Target(base.files, req) && b.links == base.links
    requires forall p :: p in prune <==> p in base.files && Variable(p) && p !in req.files
    ensures var r := Run(Do(b, NetworkUp), Drops(prune)); r.files == b.files && (LinksMatch(base) ==> LinksMatch(r))
  {
    var r := Run(Do(b, NetworkUp), Drops(prune));
    DropsRun(Do(b, NetworkUp), prune);
    if LinksMatch(base) {
      forall link ensures link in r.links <==> link in LinksOf(b.files) {
        LinkAfterReload(b, base, prune, req, link);
      }
    }
  }

  lemma NetworkUntouched(b: Guest, base: Guest, req: Request, listing: seq<Path>, link: string)
    requires IsDictionary(req) && IsWalk(listing, base.files)
    requires b.files == Target(base.files, req) && !TouchesNetwork(Touched(req, listing))
    ensures link in LinksOf(base.files) <==> link in LinksOf(b.files)
  {
    forall p | LinkOf(p) == Some(link) ensures p in base.files <==> p in b.files {
      TouchedMembers(req, listing, base.files);
      PruneMembers(req, listing, base.files);
      if p in Touched(req, listing) {
        LinkUnderNetworkDir(Touched(req, listing), p);
      }
    }
  }

  lemma LinkAfterReload(b: Guest, base: Guest, prune: seq<Path>, req: Request, link: string)
    requires b.files == Target(base.files, req) && b.links == LinksOf(base.files)
    requires forall p :: p in prune <==> p in base.files && Variable(p) && p !in req.files
    ensures link in b.links + LinksOf(b.files) && !Dropped(prune, link) <==> link in LinksOf(b.files)
  {
    if link in LinksOf(b.files) && Dropped(prune, link) {
      var p :| p in b.files && LinkOf(p) == Some(link);
      var q :| q in prune && LinkOf(q) == Some(link);
      LinkOfInjective(p, q);
    }
    if link in LinksOf(base.files) && !Dropped(prune, link) {
      var p :| p in base.files && LinkOf(p) == Some(link);
      assert p in b.files;
    }
  }

  // ---- one stage, cut anywhere --------------------------------------------------------------------

  /** `crash` is how many writes the stage lives to make; `fire` is the number of writes behind which the timer elapses,
      if it does so before the stage is over. A commit or rollback that fails to stop the timer leaves it armed. */
  datatype Event =
    | Stage(req: Request, listing: seq<Path>, verdict: bool, id: string, crash: nat, fire: Option<nat>)
    | Commit(id: string, converged: bool, stops: bool)
    | Rollback(requested: Option<string>, stops: bool)
    | TimerFires

  function Elapsed(g: Guest): Guest { if g.armed then Fire(g) else g }

  function Cut(program: seq<Effect>, crash: nat): seq<Effect> {
    if crash < |program| then program[..crash] else program
  }

  /** The writes in order, with the timer elapsing behind the first `fire` of them. */
  function RunFiring(g: Guest, effects: seq<Effect>, fire: Option<nat>): Guest {
    if fire.Some? && fire.value <= |effects| then
      Run(Elapsed(Run(g, effects[..fire.value])), effects[fire.value..])
    else Run(g, effects)
  }

  function SilentPart(req: Request, listing: seq<Path>): seq<Effect> {
    Prepare(req, listing) + [WriteScript(Touched(req, listing))]
  }

  /** Whether a timer of an earlier stage still holds the unit name when this stage comes to arm its own. */
  predicate NameTaken(g: Guest, e: Event)
    requires e.Stage?
  {
    g.armed && !(e.fire.Some? && e.fire.value <= |SilentPart(e.req, e.listing)|)
  }

  function StageProgram(g: Guest, e: Event): seq<Effect>
    requires e.Stage?
  {
    Program(e.req, e.listing, e.verdict, e.id, NameTaken(g, e))
  }

  /** The guest after a stage that died behind its first `crash` writes, or ran to the end. */
  function StageAfter(g: Guest, e: Event): Guest
    requires e.Stage?
  {
    RunFiring(g, Cut(StageProgram(g, e), e.crash), e.fire)
  }

  /** No timer runs and no transaction is open. */
  predicate Ready(g: Guest) { !g.armed && g.transaction.None? }

  predicate Quiet(g: Guest) { Ready(g) && LinksMatch(g) }

  /** The stage came to arm its timer and made at least that write. */
  predicate Arms(e: Event) {
    e.Stage? && Validates(e.req, e.verdict) && e.crash > |SilentPart(e.req, e.listing)|
  }

  /** The stage made all its writes, the record among them. */
  predicate Completes(e: Event) {
    && e.Stage? && Validates(e.req, e.verdict)
    && e.crash >= |Program(e.req, e.listing, true, e.id, false)|
  }

  /** On a guest without a timer: the stage's own timer elapses while it still runs. */
  predicate Caught(g: Guest, e: Event) {
    && e.Stage? && Arms(e) && e.fire.Some?
    && |SilentPart(e.req, e.listing)| < e.fire.value <= |Cut(StageProgram(g, e), e.crash)|
  }

  ghost predicate Possible(g: Guest, e: Event) {
    e.Stage? ==> IsDictionary(e.req) && IsWalk(e.listing, g.files)
  }

  lemma RunRest(g: Guest, effects: seq<Effect>, k: nat)
    requires k <= |effects|
    ensures Run(Run(g, effects[..k]), effects[k..]) == Run(g, effects)
  {
    RunAppend(g, effects[..k], effects[k..]);
    assert effects == effects[..k] + effects[k..];
  }

  lemma SilentWrites(req: Request, listing: seq<Path>)
    ensures forall i :: 0 <= i < |SilentPart(req, listing)| ==> Silent(SilentPart(req, listing)[i])
  { }

  /** An unarmed guest has nothing that could elapse during the silent writes. */
  lemma UnarmedElapse(g: Guest, effects: seq<Effect>, fire: Option<nat>)
    requires !g.armed
    requires fire.Some? && fire.value <= |effects| ==>
      forall i :: 0 <= i < fire.value ==> Silent(effects[i])
    ensures RunFiring(g, effects, fire) == Run(g, effects)
  {
    if fire.Some? && fire.value <= |effects| {
      SilentRun(g, effects[..fire.value]);
      RunRest(g, effects, fire.value);
    }
  }

  lemma ProgramSplit(req: Request, listing: seq<Path>, id: string)
    requires Validates(req, true)
    ensures Program(req, listing, true, id, false) ==
      SilentPart(req, listing) + (Writes(req, listing) + [Record(Transaction(id, req.revision))])
  {
    Associate(Prepare(req, listing), [WriteScript(Touched(req, listing))],
              Writes(req, listing) + [Record(Transaction(id, req.revision))]);
  }

  lemma Associate(a: seq<Effect>, b: seq<Effect>, c: seq<Effect>)
    ensures a + (b + c) == (a + b) + c
  { }

  /** Dying before the timer is armed leaves the live guest untouched. */
  lemma EarlyStage(g: Guest, e: Event)
    requires e.Stage? && !g.armed && !Arms(e)
    ensures var s := StageAfter(g, e); SameLive(s, g) && s.armed == g.armed && s.transaction == g.transaction
  {
    var silent, program := SilentPart(e.req, e.listing), StageProgram(g, e);
    var cut := Cut(program, e.crash);
    SilentWrites(e.req, e.listing);
    assert forall i :: 0 <= i < |cut| ==> i < |silent| && cut[i] == silent[i];
    UnarmedElapse(g, cut, e.fire);
    SilentRun(g, cut);
  }

  // ---- the writes behind the arming ---------------------------------------------------------------

  function Changes(req: Request, listing: seq<Path>): seq<Effect> {
    Installs(SortStrings(req.order), req.files) + Unlinks(Prune(req, listing)) + Reloads(req, listing)
  }

  function Tail(req: Request, listing: seq<Path>, id: string): seq<Effect> {
    Changes(req, listing) + [Record(Transaction(id, req.revision))]
  }

  ghost predicate Plain(effects: seq<Effect>, touched: seq<Path>) {
    forall i :: 0 <= i < |effects| ==> !effects[i].Arm? && Guarded(effects[i], touched)
  }

  lemma WritesAreChanges(req: Request, listing: seq<Path>)
    ensures Writes(req, listing) == [Arm] + Changes(req, listing)
  { }

  lemma NoArm(req: Request, listing: seq<Path>)
    ensures forall i :: 0 <= i < |Changes(req, listing)| ==> !Changes(req, listing)[i].Arm?
  {
    DropsOnly(Prune(req, listing));
  }

  lemma {:induction false} DropsOnly(paths: seq<Path>)
    ensures forall i :: 0 <= i < |Drops(paths)| ==> Drops(paths)[i].DropLink?
  {
    if paths != [] {
      DropsOnly(paths[1..]);
    }
  }

  lemma TailPlain(req: Request, listing: seq<Path>, id: string, files: Files)
    requires IsDictionary(req) && IsWalk(listing, files)
    ensures Plain(Tail(req, listing, id), Touched(req, listing))
  {
    WritesGuarded(req, listing, files);
    WritesAreChanges(req, listing);
    NoArm(req, listing);
    var writes, changes := Writes(req, listing), Changes(req, listing);
    forall i | 0 <= i < |changes| ensures Guarded(changes[i], Touched(req, listing)) {
      assert writes[i + 1] == changes[i];
    }
  }

  lemma {:induction false} PlainRun(s: Guest, base: Guest, touched: seq<Path>, effects: seq<Effect>)
    requires Protected(s, base, touched) && Plain(effects, touched)
    ensures Protected(Run(s, effects), base, touched) && Run(s, effects).armed == s.armed
    decreases |effects|
  {
    if effects != [] {
      GuardedStep(s, base, touched, effects[0]);
      PlainRun(Do(s, effects[0]), base, touched, effects[1..]);
    }
  }

  /** A slice of the tail records the transaction exactly when it reaches the end. */
  lemma TailTransaction(s: Guest, req: Request, listing: seq<Path>, id: string, from: nat, to: nat)
    requires from <= to <= |Tail(req, listing, id)|
    ensures Run(s, Tail(req, listing, id)[from..to]).transaction ==
      if from < to == |Tail(req, listing, id)| then Some(Transaction(id, req.revision)) else s.transaction
  {
    var tail, record := Tail(req, listing, id), Record(Transaction(id, req.revision));
    ChangesUnrecorded(req, listing);
    if from < to == |tail| {
      assert tail[from..to] == Changes(req, listing)[from..] + [record];
      RunAppend(s, Changes(req, listing)[from..], [record]);
      assert Run(Run(s, Changes(req, listing)[from..]), [record]) == Do(Run(s, Changes(req, listing)[from..]), record);
    } else {
      UnrecordedRun(s, tail[from..to]);
    }
  }

  lemma ChangesUnrecorded(req: Request, listing: seq<Path>)
    ensures forall i :: 0 <= i < |Changes(req, listing)| ==> !Changes(req, listing)[i].Record?
  {
    DropsOnly(Prune(req, listing));
  }

  /** The writes of a stage that arms: the silent part, the timer, and as much of the tail as it lives to make. */
  lemma ArmedCut(g: Guest, e: Event)
    requires !g.armed && Arms(e)
    ensures var silent, tail := SilentPart(e.req, e.listing), Tail(e.req, e.listing, e.id);
      var made := if Completes(e) then |tail| else e.crash - |silent| - 1;
      made <= |tail| && Cut(StageProgram(g, e), e.crash) == silent + ([Arm] + tail[..made])
  {
    var silent, tail := SilentPart(e.req, e.listing), Tail(e.req, e.listing, e.id);
    ProgramSplit(e.req, e.listing, e.id);
    WritesAreChanges(e.req, e.listing);
    assert StageProgram(g, e) == silent + ([Arm] + tail);
    assert tail[..|tail|] == tail;
  }

  lemma PastArming(g: Guest, silent: seq<Effect>, tail: seq<Effect>)
    ensures Run(g, silent + ([Arm] + tail)) == Run(Do(Run(g, silent), Arm), tail)
  {
    RunAppend(g, silent, [Arm] + tail);
    RunAppend(Run(g, silent), [Arm], tail);
    RunOne(Run(g, silent), Arm);
  }

  /** Behind the first `k` writes of the tail the timer runs, the script restores, and only the last write records. */
  lemma ArmedRun(g: Guest, e: Event, k: nat)
    requires !g.armed && Possible(g, e) && Arms(e) && Accepts(e.req) && k <= |Tail(e.req, e.listing, e.id)|
    ensures var tail := Tail(e.req, e.listing, e.id);
      var s := Run(g, SilentPart(e.req, e.listing) + ([Arm] + tail[..k]));
      && s.armed && Protected(s, g, Touched(e.req, e.listing))
      && s.transaction == (if k == |tail| then Some(Transaction(e.id, e.req.revision)) else g.transaction)
      && s == Run(Do(Run(g, SilentPart(e.req, e.listing)), Arm), tail[..k])
  {
    var silent, tail, touched := SilentPart(e.req, e.listing), Tail(e.req, e.listing, e.id), Touched(e.req, e.listing);
    var ready := Run(g, silent);
    PreparedProtected(g, e.req, e.listing);
    PastArming(g, silent, tail[..k]);
    TailPlain(e.req, e.listing, e.id, g.files);
    GuardedStep(ready, g, touched, Arm);
    PlainRun(Do(ready, Arm), g, touched, tail[..k]);
    TailTransaction(Do(ready, Arm), e.req, e.listing, e.id, 0, k);
    assert tail[0..k] == tail[..k];
  }

  lemma LiveTwin(a: Guest, b: Guest, e: Effect)
    requires SameLive(a, b)
    ensures SameLive(Do(a, e), Do(b, e))
  { }

  lemma {:induction false} LiveTwins(a: Guest, b: Guest, effects: seq<Effect>)
    requires SameLive(a, b)
    ensures SameLive(Run(a, effects), Run(b, effects))
    decreases |effects|
  {
    if effects != [] {
      LiveTwin(a, b, effects[0]);
      LiveTwins(Do(a, effects[0]), Do(b, effects[0]), effects[1..]);
    }
  }

  /** The tail takes the old files to the staged ones, whether or not a timer runs. */
  lemma TailReachesFrom(s: Guest, base: Guest, req: Request, listing: seq<Path>, id: string)
    requires IsDictionary(req) && IsWalk(listing, base.files) && SameLive(s, base)
    ensures var r := Run(s, Tail(req, listing, id));
      r.files == Target(base.files, req) && (LinksMatch(base) ==> LinksMatch(r))
  {
    var changes, record := Changes(req, listing), Record(Transaction(id, req.revision));
    CompleteWrites(s, base, req, listing);
    WritesAreChanges(req, listing);
    RunAppend(s, [Arm], changes);
    RunOne(s, Arm);
    LiveTwins(Do(s, Arm), s, changes);
    RunAppend(s, changes, [record]);
    RunOne(Run(s, changes), record);
  }

  lemma ArmedLive(g: Guest, req: Request, listing: seq<Path>)
    ensures SameLive(Do(Run(g, SilentPart(req, listing)), Arm), g)
  {
    SilentWrites(req, listing);
    SilentRun(g, SilentPart(req, listing));
  }

  /** A complete run reaches the staged files. */
  lemma TailReaches(g: Guest, e: Event)
    requires !g.armed && Possible(g, e) && Arms(e) && Accepts(e.req)
    ensures var s := Run(g, SilentPart(e.req, e.listing) + ([Arm] + Tail(e.req, e.listing, e.id)));
      s.files == Target(g.files, e.req) && (LinksMatch(g) ==> LinksMatch(s))
  {
    var silent, tail := SilentPart(e.req, e.listing), Tail(e.req, e.listing, e.id);
    var ready := Run(g, silent);
    PastArming(g, silent, tail);
    ArmedLive(g, e.req, e.listing);
    TailReachesFrom(Do(ready, Arm), g, e.req, e.listing, e.id);
  }

  lemma RunOne(s: Guest, e: Effect)
    ensures Run(s, [e]) == Do(s, e)
  {
    assert [e][1..] == [];
  }

  lemma SameTail(req: Request, listing: seq<Path>, id: string)
    ensures [Arm] + Tail(req, listing, id) == Writes(req, listing) + [Record(Transaction(id, req.revision))]
  {
    WritesAreChanges(req, listing);
  }

  /** Dying once the timer is armed, and before it elapses, leaves a guest the script can restore; only a full run
      records itself. */
  lemma LateStage(g: Guest, e: Event)
    requires !g.armed && Possible(g, e) && Arms(e) && Accepts(e.req) && !Caught(g, e)
    ensures var s := StageAfter(g, e);
      && s.armed && Protected(s, g, Touched(e.req, e.listing))
      && (!Completes(e) ==> s.transaction == g.transaction)
      && (Completes(e) ==>
            && s.transaction == Some(Transaction(e.id, e.req.revision))
            && s.files == Target(g.files, e.req) && (LinksMatch(g) ==> LinksMatch(s)))
  {
    var silent, tail := SilentPart(e.req, e.listing), Tail(e.req, e.listing, e.id);
    var made := if Completes(e) then |tail| else e.crash - |silent| - 1;
    ArmedCut(g, e);
    SilentWrites(e.req, e.listing);
    UnarmedElapse(g, Cut(StageProgram(g, e), e.crash), e.fire);
    ArmedRun(g, e, made);
    if Completes(e) {
      assert tail[..made] == tail;
      TailReaches(g, e);
    } else {
      ProgramSplit(e.req, e.listing, e.id);
      WritesAreChanges(e.req, e.listing);
    }
  }
}
