/** A stage that outlives its own timer: the guest is mended under its hands, and the rest of the stage is unguarded. */
module GatewayCaught {
  import opened Base
  import opened GatewayPaths
  import opened GatewayGuest
  import opened GatewayProtocol

  /** How many writes of the tail were made before the timer elapsed, and before the stage ended. */
  function MadeBefore(e: Event): nat
    requires e.Stage? && e.fire.Some? && e.fire.value > |SilentPart(e.req, e.listing)|
  {
    e.fire.value - |SilentPart(e.req, e.listing)| - 1
  }

  function MadeInAll(e: Event): nat
    requires Arms(e)
  {
    if Completes(e) then |Tail(e.req, e.listing, e.id)| else e.crash - |SilentPart(e.req, e.listing)| - 1
  }

  /** The writes that were made although nothing guarded them any more. */
  function Unguarded(g: Guest, e: Event): seq<Effect>
    requires !g.armed && Caught(g, e)
  {
    ArmedCut(g, e);
    Tail(e.req, e.listing, e.id)[MadeBefore(e)..MadeInAll(e)]
  }

  lemma CaughtSplit(g: Guest, e: Event)
    requires !g.armed && Caught(g, e)
    ensures MadeBefore(e) <= MadeInAll(e) <= |Tail(e.req, e.listing, e.id)|
    ensures var silent, tail := SilentPart(e.req, e.listing), Tail(e.req, e.listing, e.id);
      StageAfter(g, e) == Run(Elapsed(Run(g, silent + ([Arm] + tail[..MadeBefore(e)]))), Unguarded(g, e))
  {
    var silent, tail := SilentPart(e.req, e.listing), Tail(e.req, e.listing, e.id);
    var made, before := MadeInAll(e), MadeBefore(e);
    var cut := Cut(StageProgram(g, e), e.crash);
    ArmedCut(g, e);
    assert cut == silent + ([Arm] + tail[..made]);
    assert cut[..e.fire.value] == silent + ([Arm] + tail[..before]);
    assert cut[e.fire.value..] == tail[before..made];
  }

  /** The guest at the moment the timer elapsed, mended. */
  lemma MendedMidway(g: Guest, e: Event)
    requires !g.armed && Possible(g, e) && Caught(g, e) && Accepts(e.req)
    ensures var silent, tail := SilentPart(e.req, e.listing), Tail(e.req, e.listing, e.id);
      var r := Elapsed(Run(g, silent + ([Arm] + tail[..MadeBefore(e)])));
      && !r.armed && r.transaction.None? && Mended(r, g) && Protected(r, g, Touched(e.req, e.listing))
  {
    CaughtSplit(g, e);
    ArmedRun(g, e, MadeBefore(e));
    var silent, tail := SilentPart(e.req, e.listing), Tail(e.req, e.listing, e.id);
    var s := Run(g, silent + ([Arm] + tail[..MadeBefore(e)]));
    ScriptRestores(s, g, Touched(e.req, e.listing));
    Disarmed(RunScript(s.script, s).0, g, Touched(e.req, e.listing));
  }

  lemma Disarmed(s: Guest, base: Guest, touched: seq<Path>)
    requires Protected(s, base, touched)
    ensures Protected(s.(armed := false), base, touched)
  { }

  /** However far the stage ran on: no timer is left, the script still restores, and only the last write records. */
  lemma CaughtStage(g: Guest, e: Event)
    requires !g.armed && Possible(g, e) && Caught(g, e) && Accepts(e.req)
    ensures var s := StageAfter(g, e);
      && !s.armed && Protected(s, g, Touched(e.req, e.listing))
      && s.transaction == (if MadeBefore(e) < MadeInAll(e) == |Tail(e.req, e.listing, e.id)|
                           then Some(Transaction(e.id, e.req.revision)) else None)
  {
    var silent, tail := SilentPart(e.req, e.listing), Tail(e.req, e.listing, e.id);
    var r := Elapsed(Run(g, silent + ([Arm] + tail[..MadeBefore(e)])));
    CaughtSplit(g, e);
    MendedMidway(g, e);
    TailPlain(e.req, e.listing, e.id, g.files);
    PlainRun(r, g, Touched(e.req, e.listing), Unguarded(g, e));
    TailTransaction(r, e.req, e.listing, e.id, MadeBefore(e), MadeInAll(e));
  }

  // ---- which unguarded writes do no harm -----------------------------------------------------------

  /** A write that finds on `g` what it would leave. */
  predicate Idle(e: Effect, g: Guest) {
    match e
    case Install(target, content) => target in g.files && g.files[target] == content
    case Unlink(victim) => victim !in g.files
    case DropLink(link) => link !in g.links
    case _ => true
  }

  predicate AllIdle(effects: seq<Effect>, g: Guest) {
    forall i :: 0 <= i < |effects| ==> Idle(effects[i], g)
  }

  function FileOf(e: Effect): Option<Path> {
    match e
    case Install(target, _) => Some(target)
    case Unlink(victim) => Some(victim)
    case _ => None
  }

  /** No later write undoes an earlier one: each file is written once, and links come up before any is dropped. */
  predicate Compatible(earlier: Effect, later: Effect) {
    && (FileOf(earlier).Some? ==> FileOf(earlier) != FileOf(later))
    && !(earlier.DropLink? && later.NetworkUp?)
  }

  predicate InTail(e: Effect) { e.Install? || e.Unlink? || e.NetworkUp? || e.DropLink? || e.Record? }

  ghost predicate Orderly(effects: seq<Effect>) {
    && (forall i :: 0 <= i < |effects| ==> InTail(effects[i]))
    && (forall i, j :: 0 <= i < j < |effects| ==> Compatible(effects[i], effects[j]))
  }

  lemma OrderlyConcat(a: seq<Effect>, b: seq<Effect>)
    requires Orderly(a) && Orderly(b)
    requires forall i, j :: 0 <= i < |a| && 0 <= j < |b| ==> Compatible(a[i], b[j])
    ensures Orderly(a + b)
  { }

  lemma OrderlySlice(effects: seq<Effect>, from: nat, to: nat)
    requires Orderly(effects) && from <= to <= |effects|
    ensures Orderly(effects[from..to])
  { }

  lemma {:induction false} WithoutDistinct(paths: seq<Path>, files: Files)
    requires Distinct(paths)
    ensures Distinct(Without(paths, files))
  {
    if paths != [] {
      var rest := paths[1..];
      assert forall i :: 0 <= i < |rest| ==> rest[i] == paths[i + 1];
      WithoutDistinct(rest, files);
      WithoutMembers(rest, files);
      assert paths[0] !in rest;
    }
  }

  lemma InstallsOrderly(order: seq<Path>, files: Files)
    requires Distinct(order)
    ensures Orderly(Installs(order, files))
  { }

  lemma UnlinksOrderly(prune: seq<Path>)
    requires Distinct(prune)
    ensures Orderly(Unlinks(prune))
  { }

  lemma ReloadsOrderly(req: Request, listing: seq<Path>)
    ensures Orderly(Reloads(req, listing))
    ensures forall i :: 0 <= i < |Reloads(req, listing)| ==> FileOf(Reloads(req, listing)[i]).None?
  {
    DropsOnly(Prune(req, listing));
  }

  lemma ListsDistinct(req: Request, listing: seq<Path>, files: Files)
    requires IsDictionary(req) && IsWalk(listing, files)
    ensures Distinct(SortStrings(req.order)) && Distinct(Prune(req, listing))
    ensures forall p :: p in SortStrings(req.order) ==> p !in Prune(req, listing)
  {
    SortStringsLists(req.order, req.files.Keys);
    SortStringsLists(listing, set p | p in files && Variable(p));
    WithoutDistinct(SortStrings(listing), req.files);
    PruneMembers(req, listing, files);
  }

  lemma FilesOrderly(order: seq<Path>, prune: seq<Path>, files: Files)
    requires Distinct(order) && Distinct(prune) && forall p :: p in order ==> p !in prune
    ensures Orderly(Installs(order, files) + Unlinks(prune))
  {
    var installs, unlinks := Installs(order, files), Unlinks(prune);
    InstallsOrderly(order, files);
    UnlinksOrderly(prune);
    forall i, j | 0 <= i < |installs| && 0 <= j < |unlinks| ensures Compatible(installs[i], unlinks[j]) {
      assert order[i] in order && prune[j] in prune;
    }
    OrderlyConcat(installs, unlinks);
  }

  lemma TailOrderly(req: Request, listing: seq<Path>, id: string, files: Files)
    requires IsDictionary(req) && IsWalk(listing, files)
    ensures Orderly(Tail(req, listing, id))
  {
    var order, prune := SortStrings(req.order), Prune(req, listing);
    var changed, reloads := Installs(order, req.files) + Unlinks(prune), Reloads(req, listing);
    ListsDistinct(req, listing, files);
    FilesOrderly(order, prune, req.files);
    ReloadsOrderly(req, listing);
    FilesThenLinks(changed, reloads);
    ThenRecord(changed + reloads, Record(Transaction(id, req.revision)));
  }

  lemma FilesThenLinks(changed: seq<Effect>, reloads: seq<Effect>)
    requires Orderly(changed) && Orderly(reloads) && forall i :: 0 <= i < |changed| ==> !changed[i].DropLink?
    requires forall i :: 0 <= i < |reloads| ==> FileOf(reloads[i]).None?
    ensures Orderly(changed + reloads)
  {
    OrderlyConcat(changed, reloads);
  }

  lemma ThenRecord(effects: seq<Effect>, record: Effect)
    requires Orderly(effects) && record.Record?
    ensures Orderly(effects + [record])
  {
    OrderlyConcat(effects, [record]);
  }

  lemma {:induction false} FileKept(s: Guest, effects: seq<Effect>, p: Path)
    requires forall i :: 0 <= i < |effects| ==> InTail(effects[i]) && FileOf(effects[i]) != Some(p)
    ensures var r := Run(s, effects); (p in r.files <==> p in s.files) && (p in s.files ==> r.files[p] == s.files[p])
    decreases |effects|
  {
    if effects != [] {
      FileKept(Do(s, effects[0]), effects[1..], p);
    }
  }

  lemma {:induction false} LinkStaysDown(s: Guest, effects: seq<Effect>, link: string)
    requires link !in s.links && forall i :: 0 <= i < |effects| ==> InTail(effects[i]) && !effects[i].NetworkUp?
    ensures link !in Run(s, effects).links
    decreases |effects|
  {
    if effects != [] {
      LinkStaysDown(Do(s, effects[0]), effects[1..], link);
    }
  }

  lemma IdleDoes(r: Guest, g: Guest, e: Effect)
    requires SameLive(r, g) && LinksMatch(g) && InTail(e) && Idle(e, g)
    ensures SameLive(Do(r, e), g)
  {
    match e
    case Install(target, content) => assert r.files[target := content] == r.files;
    case Unlink(victim) => assert r.files - {victim} == r.files;
    case DropLink(link) => assert r.links - {link} == r.links;
    case NetworkUp => assert r.links + LinksOf(r.files) == r.links;
    case _ =>
  }

  lemma BusyShows(r: Guest, g: Guest, effects: seq<Effect>)
    requires SameLive(r, g) && effects != [] && Orderly(effects) && !Idle(effects[0], g)
    ensures !SameLive(Run(r, effects), g)
  {
    var e, rest := effects[0], effects[1..];
    assert forall i :: 0 <= i < |rest| ==> rest[i] == effects[i + 1] && Compatible(e, rest[i]);
    if e.DropLink? {
      LinkStaysDown(Do(r, e), rest, e.link);
    } else {
      FileKept(Do(r, e), rest, FileOf(e).value);
    }
  }

  lemma {:induction false} IdleExactly(r: Guest, g: Guest, effects: seq<Effect>)
    requires SameLive(r, g) && LinksMatch(g) && Orderly(effects)
    ensures SameLive(Run(r, effects), g) <==> AllIdle(effects, g)
    decreases |effects|
  {
    if effects != [] {
      var rest := effects[1..];
      OrderlySlice(effects, 1, |effects|);
      assert effects[1..|effects|] == rest;
      assert forall i :: 0 <= i < |rest| ==> rest[i] == effects[i + 1];
      if Idle(effects[0], g) {
        IdleDoes(r, g, effects[0]);
        IdleExactly(Do(r, effects[0]), g, rest);
        assert AllIdle(effects, g) <==> AllIdle(rest, g);
      } else {
        BusyShows(r, g, effects);
      }
    }
  }

  // ---- main results ----------------------------------------------------------------------------------

  /** A stage caught by its own timer ends with the old files and links exactly when every write it made behind the
      firing found on the old guest what it would leave: equal content, an absent file, an absent link. */
  lemma CaughtExactly(g: Guest, e: Event)
    requires !g.armed && LinksMatch(g) && Possible(g, e) && Caught(g, e) && Accepts(e.req)
    ensures SameLive(StageAfter(g, e), g) <==> AllIdle(Unguarded(g, e), g)
  {
    var tail := Tail(e.req, e.listing, e.id);
    CaughtSplit(g, e);
    MendedMidway(g, e);
    TailOrderly(e.req, e.listing, e.id, g.files);
    OrderlySlice(tail, MadeBefore(e), MadeInAll(e));
    IdleExactly(Elapsed(Run(g, SilentPart(e.req, e.listing) + ([Arm] + tail[..MadeBefore(e)]))), g, Unguarded(g, e));
  }

  /** A stage caught right behind the arming still reaches its target and records itself, with no timer left that would
      undo it. */
  lemma CaughtAtOnce(g: Guest, e: Event)
    requires !g.armed && LinksMatch(g) && Possible(g, e) && Caught(g, e) && Accepts(e.req)
    requires Completes(e) && MadeBefore(e) == 0
    ensures var s := StageAfter(g, e);
      && !s.armed && s.files == Target(g.files, e.req) && LinksMatch(s)
      && s.transaction == Some(Transaction(e.id, e.req.revision))
  {
    var silent, tail := SilentPart(e.req, e.listing), Tail(e.req, e.listing, e.id);
    CaughtSplit(g, e);
    CaughtStage(g, e);
    MendedMidway(g, e);
    assert Unguarded(g, e) == tail;
    TailReachesFrom(Elapsed(Run(g, silent + ([Arm] + tail[..0]))), g, e.req, e.listing, e.id);
  }
}
