/** A rollback script whose backups are gone: it removes what had been added until it misses its first copy. */
module GatewayHollow {
  import opened Base
  import opened GatewayPaths
  import opened GatewayGuest
  import opened GatewayProtocol

  /** What a script for `paths` removes when it was written over the backups named in `kept` and finds those in `now`:
      paths that had been new, up to the first copy it misses. */
  function Swept(paths: seq<Path>, kept: map<string, string>, now: map<string, string>): set<Path> {
    if paths == [] then {}
    else if BackupName(paths[0]) !in kept then {paths[0]} + Swept(paths[1..], kept, now)
    else if BackupName(paths[0]) in now then Swept(paths[1..], kept, now)
    else {}
  }

  /** Whether it misses none. */
  predicate AllMet(paths: seq<Path>, kept: map<string, string>, now: map<string, string>) {
    forall i :: 0 <= i < |paths| && BackupName(paths[i]) in kept ==> BackupName(paths[i]) in now
  }

  lemma {:induction false} SweptMembers(paths: seq<Path>, kept: map<string, string>, now: map<string, string>)
    ensures forall p :: p in Swept(paths, kept, now) ==> p in paths && BackupName(p) !in kept
  {
    if paths != [] {
      SweptMembers(paths[1..], kept, now);
    }
  }

  /** The copies the script can still make would change nothing. */
  ghost predicate CopiesIdle(g: Guest, paths: seq<Path>, kept: map<string, string>) {
    forall p :: p in paths && BackupName(p) in kept && BackupName(p) in g.backup ==>
      p in g.files && g.files[p] == g.backup[BackupName(p)]
  }

  /** The script is still the one for `paths`; the backups it was written over are not there any more. */
  ghost predicate Hollow(g: Guest, paths: seq<Path>, kept: map<string, string>) {
    AllAllowed(paths) && g.script == ScriptFor(paths, kept) && CopiesIdle(g, paths, kept)
  }

  // ---- running it ------------------------------------------------------------------------------------

  function EndLines(paths: seq<Path>): seq<Line> {
    (if TouchesNetwork(paths) then [ReloadNetwork] else []) + [RestartServices, ForgetTransaction]
  }

  /** What is left of the guest by a script that removes `swept`. */
  ghost predicate SweptTo(r: Guest, g: Guest, swept: set<Path>) {
    && r.files == g.files - swept && (LinksMatch(g) ==> LinksMatch(r))
    && r.backup == g.backup && r.script == g.script && r.armed == g.armed
  }

  lemma RemovalKeepsMatch(p: Path, g: Guest)
    requires LinksMatch(g)
    ensures LinksMatch(WithoutPath(p, g))
  {
    var next := WithoutPath(p, g);
    forall link ensures link in next.links <==> link in LinksOf(next.files) {
      if link in LinksOf(next.files) {
        var q :| q in next.files && LinkOf(q) == Some(link);
        if LinkOf(p) == Some(link) { LinkOfInjective(p, q); }
      }
      if link in next.links {
        var q :| q in g.files && LinkOf(q) == Some(link);
        assert q in next.files;
      }
    }
  }

  lemma EndRun(all: seq<Path>, g: Guest)
    ensures var r := RunScript(EndLines(all), g);
      r.1 && SweptTo(r.0, g, {}) && r.0.transaction.None?
  {
    TailRun(all, g);
    assert g.files - {} == g.files;
    if LinksMatch(g) { assert g.links + LinksOf(g.files) == g.links; }
  }

  lemma {:induction false} SweepLines(paths: seq<Path>, all: seq<Path>, kept: map<string, string>, g: Guest)
    requires CopiesIdle(g, paths, kept)
    ensures var r := RunScript(PathLines(paths, kept) + EndLines(all), g);
      && SweptTo(r.0, g, Swept(paths, kept, g.backup))
      && (r.1 <==> AllMet(paths, kept, g.backup))
      && r.0.transaction == if r.1 then None else g.transaction
  {
    if paths == [] {
      assert PathLines(paths, kept) + EndLines(all) == EndLines(all);
      EndRun(all, g);
    } else {
      var p, rest := paths[0], PathLines(paths[1..], kept) + EndLines(all);
      assert PathLines(paths, kept) + EndLines(all) == OnePath(p, kept) + rest;
      assert forall q :: q in paths <==> q == p || q in paths[1..];
      if BackupName(p) !in kept {
        SweepRemoval(p, paths[1..], kept, rest, g);
        SweepLines(paths[1..], all, kept, WithoutPath(p, g));
        SweptToMore(RunScript(rest, WithoutPath(p, g)).0, p, g, Swept(paths[1..], kept, g.backup));
      } else {
        CopyRun(p, kept, rest, g);
        if BackupName(p) in g.backup {
          SweepLines(paths[1..], all, kept, g);
        } else {
          assert g.files - {} == g.files;
        }
      }
    }
  }

  lemma SweptToMore(r: Guest, p: Path, g: Guest, swept: set<Path>)
    requires SweptTo(r, WithoutPath(p, g), swept)
    ensures SweptTo(r, g, {p} + swept)
  {
    if LinksMatch(g) { RemovalKeepsMatch(p, g); }
    assert g.files - {p} - swept == g.files - ({p} + swept);
  }

  lemma SweepRemoval(p: Path, others: seq<Path>, kept: map<string, string>, rest: seq<Line>, g: Guest)
    requires CopiesIdle(g, others, kept) && BackupName(p) !in kept
    ensures RunScript(OnePath(p, kept) + rest, g) == RunScript(rest, WithoutPath(p, g))
    ensures CopiesIdle(WithoutPath(p, g), others, kept)
  {
    RemovalRun(p, kept, rest, g);
  }

  /** A copy that would change nothing, or that finds no backup. */
  lemma CopyRun(p: Path, kept: map<string, string>, rest: seq<Line>, g: Guest)
    requires BackupName(p) in kept
    requires BackupName(p) in g.backup ==> p in g.files && g.files[p] == g.backup[BackupName(p)]
    ensures RunScript(OnePath(p, kept) + rest, g) ==
      if BackupName(p) in g.backup then RunScript(rest, g) else (g, false)
  {
    assert (OnePath(p, kept) + rest)[1..] == rest;
    if BackupName(p) in g.backup { assert g.files[p := g.backup[BackupName(p)]] == g.files; }
  }

  /** The exact outcome of such a script: the swept files and their links are gone, and nothing else moved. */
  lemma Sweep(g: Guest, paths: seq<Path>, kept: map<string, string>)
    requires Hollow(g, paths, kept)
    ensures var r := RunScript(g.script, g);
      && SweptTo(r.0, g, Swept(paths, kept, g.backup)) && Hollow(r.0, paths, kept)
      && (r.1 <==> AllMet(paths, kept, g.backup))
      && r.0.transaction == if r.1 then None else g.transaction
  {
    assert g.script == PathLines(paths, kept) + EndLines(paths);
    SweepLines(paths, paths, kept, g);
    SweptMembers(paths, kept, g.backup);
  }

  /** It is harmless exactly when nothing it removes is there. */
  lemma SweepHarmlessExactly(g: Guest, paths: seq<Path>, kept: map<string, string>)
    requires Hollow(g, paths, kept) && LinksMatch(g)
    ensures SameLive(RunScript(g.script, g).0, g) <==> Swept(paths, kept, g.backup) !! g.files.Keys
  {
    var swept := Swept(paths, kept, g.backup);
    Sweep(g, paths, kept);
    if swept !! g.files.Keys {
      assert g.files - swept == g.files;
    } else {
      var p :| p in swept && p in g.files;
      assert p !in g.files - swept;
    }
  }

  // ---- how a script becomes hollow ---------------------------------------------------------------------

  /** Every backup is a copy of a current managed file, filed under that file's own name. */
  ghost predicate FreshBackups(g: Guest) {
    forall b :: b in g.backup ==>
      exists p :: Allowed(p) && p in g.files && b == BackupName(p) && g.backup[b] == g.files[p]
  }

  lemma FreshIsIdle(g: Guest, paths: seq<Path>, kept: map<string, string>)
    requires FreshBackups(g) && AllAllowed(paths)
    ensures CopiesIdle(g, paths, kept)
  {
    forall p | p in paths && BackupName(p) in kept && BackupName(p) in g.backup
      ensures p in g.files && g.files[p] == g.backup[BackupName(p)]
    {
      var b := BackupName(p);
      var q :| Allowed(q) && q in g.files && b == BackupName(q) && g.backup[b] == g.files[q];
      BackupNameInjective(p, q);
    }
  }

  lemma {:induction false} FreshBackupsRun(g: Guest, effects: seq<Effect>)
    requires FreshBackups(g)
    requires OnlyBackups(effects)
    ensures FreshBackups(Run(g, effects)) && Run(g, effects).script == g.script
    decreases |effects|
  {
    if effects != [] {
      var next := Do(g, effects[0]);
      forall b | b in next.backup
        ensures exists p :: Allowed(p) && p in next.files && b == BackupName(p) && next.backup[b] == next.files[p]
      {
        if effects[0].path in g.files && b == BackupName(effects[0].path) {
          assert next.backup[b] == next.files[effects[0].path];
        } else {
          assert b in g.backup;
        }
      }
      FreshBackupsRun(next, effects[1..]);
    }
  }

  /** Anything a stage writes before its script leaves the old script without its backups. */
  lemma PreparingHollows(g: Guest, e: Event, cut: seq<Effect>, paths: seq<Path>, kept: map<string, string>)
    requires AllAllowed(paths) && g.script == ScriptFor(paths, kept)
    requires e.Stage? && Possible(g, e) && Accepts(e.req)
    requires [ClearDirectories] <= cut <= Prepare(e.req, e.listing)
    ensures Hollow(Run(g, cut), paths, kept) && SameLive(Run(g, cut), g)
  {
    var cleared, rest := Do(g, ClearDirectories), cut[1..];
    assert Run(g, cut) == Run(cleared, rest);
    assert rest == Prepare(e.req, e.listing)[1..][..|rest|];
    PrepareBackups(g, e);
    FreshBackupsRun(cleared, rest);
    SilentRun(cleared, rest);
    FreshIsIdle(Run(cleared, rest), paths, kept);
  }

  ghost predicate OnlyBackups(effects: seq<Effect>) {
    forall i :: 0 <= i < |effects| ==> effects[i].Backup? && Allowed(effects[i].path)
  }

  lemma BackupsOnly(paths: seq<Path>)
    requires AllAllowed(paths)
    ensures OnlyBackups(Backups(paths))
  { }

  lemma PrepareBackups(g: Guest, e: Event)
    requires e.Stage? && Possible(g, e) && Accepts(e.req)
    ensures OnlyBackups(Prepare(e.req, e.listing)[1..])
  {
    var order, prune := SortStrings(e.req.order), Prune(e.req, e.listing);
    ListsAllowed(g, e);
    BackupsOnly(order);
    BackupsOnly(prune);
    BackupsJoin(Backups(order), Backups(prune));
    Behind(ClearDirectories, Backups(order), Backups(prune));
  }

  lemma ListsAllowed(g: Guest, e: Event)
    requires e.Stage? && Possible(g, e) && Accepts(e.req)
    ensures AllAllowed(SortStrings(e.req.order)) && AllAllowed(Prune(e.req, e.listing))
  {
    TouchedMembers(e.req, e.listing, g.files);
  }

  lemma BackupsJoin(a: seq<Effect>, b: seq<Effect>)
    requires OnlyBackups(a) && OnlyBackups(b)
    ensures OnlyBackups(a + b)
  { }

  lemma Behind(e: Effect, a: seq<Effect>, b: seq<Effect>)
    ensures ([e] + a + b)[1..] == a + b
  { }
}
