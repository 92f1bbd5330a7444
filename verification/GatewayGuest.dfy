/** The Gateway guest's two-phase applier: back up, arm a timer, install, then commit or roll back. */
module GatewayGuest {
  import opened Base
  import opened GatewayPaths

  type Files = map<Path, string>

  /** One line of the generated rollback script, which runs under `set -e`. */
  datatype Line =
    | Copy(from: string, to: Path)
    | Remove(path: Path)
    | DeleteLink(link: string)
    | ReloadNetwork
    | RestartServices
    | ForgetTransaction

  datatype Transaction = Transaction(id: string, revision: string)

  /** Everything of the guest the protocol can touch. `links` holds its VLAN links. */
  datatype Guest = Guest(
    files: Files,
    backup: map<string, string>,
    script: seq<Line>,
    armed: bool,
    transaction: Option<Transaction>,
    links: set<string>)

  /** `order` is the iteration order of the `files` dictionary. */
  datatype Request = Request(revision: string, order: seq<Path>, files: Files, rollbackSeconds: int)

  ghost predicate IsDictionary(req: Request) {
    Lists(req.order, req.files.Keys)
  }

  /** The unsorted outcome of the directory walk: the variable managed paths present on disk. */
  ghost predicate IsWalk(listing: seq<Path>, files: Files) {
    Lists(listing, set p | p in files && Variable(p))
  }

  function LinksOf(files: Files): set<string> {
    set p | p in files && LinkOf(p).Some? :: LinkOf(p).value
  }

  /** Managed VLAN links and managed `.netdev` files coincide. */
  predicate LinksMatch(g: Guest) {
    g.links == LinksOf(g.files)
  }

  // ---- the rollback script --------------------------------------------------------------------

  predicate TouchesNetwork(paths: seq<Path>) {
    exists i :: 0 <= i < |paths| && NETWORK_DIR <= paths[i]
  }

  function OnePath(p: Path, backup: map<string, string>): seq<Line> {
    if BackupName(p) in backup then [Copy(BackupName(p), p)]
    else [Remove(p)] + if LinkOf(p).Some? then [DeleteLink(LinkOf(p).value)] else []
  }

  function PathLines(paths: seq<Path>, backup: map<string, string>): seq<Line> {
    if paths == [] then [] else OnePath(paths[0], backup) + PathLines(paths[1..], backup)
  }

  function ScriptFor(paths: seq<Path>, backup: map<string, string>): seq<Line> {
    PathLines(paths, backup)
    + (if TouchesNetwork(paths) then [ReloadNetwork] else [])
    + [RestartServices, ForgetTransaction]
  }

  /** Runs the script; a copy from a missing backup stops it there, as `set -e` demands. */
  function RunScript(lines: seq<Line>, g: Guest): (r: (Guest, bool)) {
    if lines == [] then (g, true)
    else match lines[0]
      case Copy(from, to) =>
        if from in g.backup then RunScript(lines[1..], g.(files := g.files[to := g.backup[from]])) else (g, false)
      case Remove(path) => RunScript(lines[1..], g.(files := g.files - {path}))
      case DeleteLink(link) => RunScript(lines[1..], g.(links := g.links - {link}))
      case ReloadNetwork => RunScript(lines[1..], g.(links := g.links + LinksOf(g.files)))
      case RestartServices => RunScript(lines[1..], g)
      case ForgetTransaction => RunScript(lines[1..], g.(transaction := None))
  }

  // ---- staging as a list of writes, so that a crash is a prefix -------------------------------

  datatype Effect =
    | ClearDirectories
    | Backup(path: Path)
    | WriteScript(paths: seq<Path>)
    | Arm
    | Install(target: Path, content: string)
    | Unlink(victim: Path)
    | NetworkUp
    | DropLink(link: string)
    | Record(transaction: Transaction)

  function Do(g: Guest, e: Effect): Guest {
    match e
    case ClearDirectories => g.(backup := map[])
    case Backup(path) => if path in g.files then g.(backup := g.backup[BackupName(path) := g.files[path]]) else g
    case WriteScript(paths) => g.(script := ScriptFor(paths, g.backup))
    case Arm => g.(armed := true)
    case Install(target, content) => g.(files := g.files[target := content])
    case Unlink(victim) => g.(files := g.files - {victim})
    case NetworkUp => g.(links := g.links + LinksOf(g.files))
    case DropLink(link) => g.(links := g.links - {link})
    case Record(transaction) => g.(transaction := Some(transaction))
  }

  function Run(g: Guest, effects: seq<Effect>): Guest
    decreases |effects|
  {
    if effects == [] then g else Run(Do(g, effects[0]), effects[1..])
  }

  function Backups(paths: seq<Path>): seq<Effect> {
    seq(|paths|, i requires 0 <= i < |paths| => Backup(paths[i]))
  }

  function Content(files: Files, p: Path): string {
    if p in files then files[p] else ""
  }

  function Installs(paths: seq<Path>, files: Files): seq<Effect> {
    seq(|paths|, i requires 0 <= i < |paths| => Install(paths[i], Content(files, paths[i])))
  }

  function Unlinks(paths: seq<Path>): seq<Effect> {
    seq(|paths|, i requires 0 <= i < |paths| => Unlink(paths[i]))
  }

  function Drops(paths: seq<Path>): seq<Effect> {
    if paths == [] then []
    else (if LinkOf(paths[0]).Some? then [DropLink(LinkOf(paths[0]).value)] else []) + Drops(paths[1..])
  }

  function Without(paths: seq<Path>, files: Files): seq<Path> {
    if paths == [] then []
    else (if paths[0] in files then [] else [paths[0]]) + Without(paths[1..], files)
  }

  function Prune(req: Request, listing: seq<Path>): seq<Path> {
    Without(SortStrings(listing), req.files)
  }

  function Touched(req: Request, listing: seq<Path>): seq<Path> {
    SortStrings(req.order + Prune(req, listing))
  }

  predicate IsHex(c: char) { '0' <= c <= '9' || 'a' <= c <= 'f' }

  predicate IsRevision(s: string) { |s| == 64 && forall i :: 0 <= i < 64 ==> IsHex(s[i]) }

  /** The checks that come before anything is written, apart from the anti-stacking guard. */
  predicate Accepts(req: Request) {
    && IsRevision(req.revision)
    && |req.files| > 0
    && (forall p <- req.files.Keys :: Allowed(p))
    && 60 <= req.rollbackSeconds <= 1800
  }

  /** Something a validator recognises was staged, and every validator that ran accepted it. */
  predicate Validates(req: Request, verdict: bool) {
    verdict && (NFTABLES_PATH in req.files || SQUID_PATH in req.files || DNSMASQ_PATH in req.files)
  }

  function Prepare(req: Request, listing: seq<Path>): seq<Effect> {
    [ClearDirectories] + Backups(SortStrings(req.order)) + Backups(Prune(req, listing))
  }

  function Reloads(req: Request, listing: seq<Path>): seq<Effect> {
    if TouchesNetwork(Touched(req, listing)) then [NetworkUp] + Drops(Prune(req, listing)) else []
  }

  function Writes(req: Request, listing: seq<Path>): seq<Effect> {
    [Arm] + Installs(SortStrings(req.order), req.files) + Unlinks(Prune(req, listing)) + Reloads(req, listing)
  }

  /** The whole stage. `systemd-run` refuses a unit name that is still active, which ends it early. */
  function Program(req: Request, listing: seq<Path>, verdict: bool, id: string, armed: bool): seq<Effect> {
    Prepare(req, listing)
    + if !Validates(req, verdict) then []
      else [WriteScript(Touched(req, listing))]
           + if armed then [] else Writes(req, listing) + [Record(Transaction(id, req.revision))]
  }

  // ---- basic facts about prefixes -------------------------------------------------------------

  lemma {:induction false} RunAppend(g: Guest, a: seq<Effect>, b: seq<Effect>)
    ensures Run(g, a + b) == Run(Run(g, a), b)
    decreases |a|
  {
    if a == [] {
      assert a + b == b;
    } else {
      assert (a + b)[1..] == a[1..] + b;
      RunAppend(Do(g, a[0]), a[1..], b);
    }
  }

  /** Writes that leave the live guest alone: directories, backups and the script text. */
  predicate Silent(e: Effect) { e.ClearDirectories? || e.Backup? || e.WriteScript? }

  lemma {:induction false} SilentRun(g: Guest, effects: seq<Effect>)
    requires forall i :: 0 <= i < |effects| ==> Silent(effects[i])
    ensures var s := Run(g, effects);
      s.files == g.files && s.links == g.links && s.armed == g.armed && s.transaction == g.transaction
    decreases |effects|
  {
    if effects != [] {
      SilentRun(Do(g, effects[0]), effects[1..]);
    }
  }

  // ---- what the backups hold ------------------------------------------------------------------

  ghost predicate BackedUp(backup: map<string, string>, files: Files, done: seq<Path>) {
    && (forall p :: p in done && p in files ==> BackupName(p) in backup && backup[BackupName(p)] == files[p])
    && (forall b :: b in backup ==> exists p :: p in done && p in files && b == BackupName(p))
  }

  ghost predicate AllAllowed(paths: seq<Path>) { forall p :: p in paths ==> Allowed(p) }

  lemma BackupOne(g: Guest, done: seq<Path>, p: Path)
    requires BackedUp(g.backup, g.files, done) && AllAllowed(done) && Allowed(p)
    ensures BackedUp(Do(g, Backup(p)).backup, g.files, done + [p])
  {
    var s := Do(g, Backup(p));
    forall q | q in done + [p] && q in g.files
      ensures BackupName(q) in s.backup && s.backup[BackupName(q)] == g.files[q]
    {
      if q != p && BackupName(q) == BackupName(p) {
        BackupNameInjective(q, p);
      }
    }
    forall b | b in s.backup ensures exists q :: q in done + [p] && q in g.files && b == BackupName(q) {
      if b in g.backup {
        var q :| q in done && q in g.files && b == BackupName(q);
        assert q in done + [p];
      } else {
        assert p in done + [p];
      }
    }
  }

  lemma {:induction false} BackupsRun(g: Guest, done: seq<Path>, todo: seq<Path>)
    requires BackedUp(g.backup, g.files, done) && AllAllowed(done) && AllAllowed(todo)
    ensures BackedUp(Run(g, Backups(todo)).backup, g.files, done + todo)
    decreases |todo|
  {
    if todo == [] {
      assert done + todo == done;
    } else {
      BackupOne(g, done, todo[0]);
      assert Backups(todo)[1..] == Backups(todo[1..]);
      BackupsRun(Do(g, Backup(todo[0])), done + [todo[0]], todo[1..]);
      assert done + [todo[0]] + todo[1..] == done + todo;
    }
  }

  /** A managed path has a backup exactly when it existed. */
  lemma BackupIffPresent(backup: map<string, string>, files: Files, done: seq<Path>, p: Path)
    requires BackedUp(backup, files, done) && AllAllowed(done) && p in done
    ensures BackupName(p) in backup <==> p in files
    ensures p in files ==> backup[BackupName(p)] == files[p]
  {
    if BackupName(p) in backup {
      var q :| q in done && q in files && BackupName(p) == BackupName(q);
      BackupNameInjective(p, q);
    }
  }

  // ---- the script restores what it was written for ----------------------------------------------

  function WithoutPath(p: Path, g: Guest): Guest {
    g.(files := g.files - {p}, links := if LinkOf(p).Some? then g.links - {LinkOf(p).value} else g.links)
  }

  function AfterPath(p: Path, g: Guest): Guest {
    if BackupName(p) in g.backup then g.(files := g.files[p := g.backup[BackupName(p)]]) else WithoutPath(p, g)
  }

  function AfterPaths(paths: seq<Path>, g: Guest): Guest {
    if paths == [] then g else AfterPaths(paths[1..], AfterPath(paths[0], g))
  }

  lemma OnePathRun(p: Path, tail: seq<Line>, g: Guest)
    ensures RunScript(OnePath(p, g.backup) + tail, g) == RunScript(tail, AfterPath(p, g))
  {
    if BackupName(p) in g.backup {
      assert (OnePath(p, g.backup) + tail)[1..] == tail;
    } else {
      RemovalRun(p, g.backup, tail, g);
    }
  }

  /** The lines for a path without a backup, whatever backups the guest has when they run. */
  lemma RemovalRun(p: Path, kept: map<string, string>, tail: seq<Line>, g: Guest)
    requires BackupName(p) !in kept
    ensures RunScript(OnePath(p, kept) + tail, g) == RunScript(tail, WithoutPath(p, g))
  {
    var lines := OnePath(p, kept) + tail;
    if LinkOf(p).Some? {
      var link := DeleteLink(LinkOf(p).value);
      assert lines == [Remove(p)] + ([link] + tail);
      assert lines[1..] == [link] + tail;
      assert ([link] + tail)[1..] == tail;
    } else {
      assert lines[1..] == tail;
    }
  }

  lemma PathLinesStep(paths: seq<Path>, rest: seq<Line>, g: Guest)
    requires paths != []
    ensures var next := AfterPath(paths[0], g);
      RunScript(PathLines(paths, g.backup) + rest, g) == RunScript(PathLines(paths[1..], g.backup) + rest, next)
  {
    var tail := PathLines(paths[1..], g.backup) + rest;
    assert PathLines(paths, g.backup) + rest == OnePath(paths[0], g.backup) + tail;
    OnePathRun(paths[0], tail, g);
  }

  lemma {:induction false} PathLinesRun(paths: seq<Path>, rest: seq<Line>, g: Guest)
    ensures RunScript(PathLines(paths, g.backup) + rest, g) == RunScript(rest, AfterPaths(paths, g))
  {
    if paths == [] {
      assert PathLines(paths, g.backup) + rest == rest;
    } else {
      PathLinesStep(paths, rest, g);
      PathLinesRun(paths[1..], rest, AfterPath(paths[0], g));
    }
  }

  lemma {:induction false} AfterPathsFiles(paths: seq<Path>, g: Guest, p: Path)
    ensures var s := AfterPaths(paths, g);
      if p in paths then
        && (p in s.files <==> BackupName(p) in g.backup)
        && (p in s.files ==> s.files[p] == g.backup[BackupName(p)])
      else
        && (p in s.files <==> p in g.files)
        && (p in s.files ==> s.files[p] == g.files[p])
  {
    if paths != [] {
      assert paths == [paths[0]] + paths[1..];
      AfterPathsFiles(paths[1..], AfterPath(paths[0], g), p);
    }
  }

  predicate DroppedBy(p: Path, backup: map<string, string>, link: string) {
    BackupName(p) !in backup && LinkOf(p) == Some(link)
  }

  lemma {:induction false} AfterPathsLinks(paths: seq<Path>, g: Guest, link: string)
    ensures var s := AfterPaths(paths, g);
      link in s.links <==> link in g.links && forall p :: p in paths ==> !DroppedBy(p, g.backup, link)
    ensures AfterPaths(paths, g).backup == g.backup
  {
    if paths != [] {
      AfterPathsLinks(paths[1..], AfterPath(paths[0], g), link);
      assert forall p :: p in paths <==> p == paths[0] || p in paths[1..];
      assert link in AfterPath(paths[0], g).links <==> link in g.links && !DroppedBy(paths[0], g.backup, link);
    }
  }

  /** The firing timer runs the script, whatever becomes of it, and is gone. */
  function Fire(g: Guest): Guest {
    RunScript(g.script, g).0.(armed := false)
  }

  /** The files differ from `before` only on touched paths, and the backups hold what those were. */
  ghost predicate FilesProtected(s: Guest, before: Files, touched: seq<Path>) {
    && AllAllowed(touched)
    && BackedUp(s.backup, before, touched)
    && s.script == ScriptFor(touched, s.backup)
    && (forall p :: p !in touched ==>
          (p in s.files <==> p in before) && (p in s.files ==> s.files[p] == before[p]))
  }

  ghost predicate LinksProtected(s: Guest, base: Guest, touched: seq<Path>) {
    forall link :: (forall p :: p in touched ==> LinkOf(p) != Some(link)) ==> (link in s.links <==> link in base.links)
  }

  /** `s` is an installation in progress over `base`, and its script can still undo it. */
  ghost predicate Protected(s: Guest, base: Guest, touched: seq<Path>) {
    FilesProtected(s, base.files, touched) && (LinksMatch(base) ==> LinksProtected(s, base, touched))
  }

  /** The files of `base` are back, and with links that coincided with them the links too. */
  ghost predicate Mended(s: Guest, base: Guest) {
    s.files == base.files && (LinksMatch(base) ==> s.links == base.links)
  }

  ghost predicate SameLive(s: Guest, base: Guest) {
    s.files == base.files && s.links == base.links
  }

  lemma RestoredFiles(s: Guest, before: Files, touched: seq<Path>)
    requires FilesProtected(s, before, touched)
    ensures AfterPaths(touched, s).files == before
  {
    var r := AfterPaths(touched, s);
    forall p
      ensures p in r.files <==> p in before
      ensures p in r.files ==> r.files[p] == before[p]
    {
      AfterPathsFiles(touched, s, p);
      if p in touched {
        BackupIffPresent(s.backup, before, touched, p);
      }
    }
  }

  lemma LinkUnderNetworkDir(paths: seq<Path>, p: Path)
    requires p in paths && LinkOf(p).Some?
    ensures TouchesNetwork(paths)
  {
    VariableShape(p);
    var i :| 0 <= i < |paths| && paths[i] == p;
    assert NETWORK_DIR <= paths[i];
  }

  lemma RestoredLink(s: Guest, base: Guest, touched: seq<Path>, link: string)
    requires Protected(s, base, touched) && LinksMatch(base)
    ensures var after := AfterPaths(touched, s).links;
      link in base.links <==>
        link in if TouchesNetwork(touched) then after + LinksOf(base.files) else after
  {
    AfterPathsLinks(touched, s, link);
    if p :| p in touched && LinkOf(p) == Some(link) {
      LinkUnderNetworkDir(touched, p);
      BackupIffPresent(s.backup, base.files, touched, p);
      if p in base.files {
        assert link in LinksOf(base.files);
      } else {
        assert DroppedBy(p, s.backup, link);
        if link in LinksOf(base.files) {
          var q :| q in base.files && LinkOf(q) == Some(link);
          LinkOfInjective(p, q);
        }
      }
    } else {
      forall p | p in touched ensures !DroppedBy(p, s.backup, link) { }
    }
  }

  lemma ScriptRun(s: Guest, touched: seq<Path>)
    requires s.script == ScriptFor(touched, s.backup)
    ensures var a := AfterPaths(touched, s);
      var links := if TouchesNetwork(touched) then a.links + LinksOf(a.files) else a.links;
      RunScript(s.script, s) == (a.(links := links, transaction := None), true)
    ensures var a := AfterPaths(touched, s);
      a.backup == s.backup && a.script == s.script && a.armed == s.armed && a.transaction == s.transaction
  {
    var tail := (if TouchesNetwork(touched) then [ReloadNetwork] else []) + [RestartServices, ForgetTransaction];
    assert s.script == PathLines(touched, s.backup) + tail;
    PathLinesRun(touched, tail, s);
    AfterPathsRest(touched, s);
    TailRun(touched, AfterPaths(touched, s));
  }

  /** From anywhere inside the installation, the script gives back the exact files and links. */
  lemma ScriptRestores(s: Guest, base: Guest, touched: seq<Path>)
    requires Protected(s, base, touched)
    ensures var r := RunScript(s.script, s);
      && r.1 && Mended(r.0, base) && r.0.transaction == None && r.0.armed == s.armed
      && r.0.backup == s.backup && r.0.script == s.script
      && Protected(r.0, base, touched)
  {
    var a := AfterPaths(touched, s);
    ScriptRun(s, touched);
    RestoredFiles(s, base.files, touched);
    var links := if TouchesNetwork(touched) then a.links + LinksOf(a.files) else a.links;
    if LinksMatch(base) {
      forall link ensures link in links <==> link in base.links {
        RestoredLink(s, base, touched, link);
      }
    }
  }

  /** Running the script a second time changes nothing more. */
  lemma ScriptIdempotent(s: Guest, base: Guest, touched: seq<Path>)
    requires Protected(s, base, touched)
    ensures var once := RunScript(s.script, s).0; RunScript(once.script, once) == (once, true)
  {
    var once := RunScript(s.script, s).0;
    var twice := RunScript(once.script, once).0;
    ScriptRestores(s, base, touched);
    ScriptRestores(once, base, touched);
    ScriptRun(s, touched);
    ScriptRun(once, touched);
    forall link ensures link in twice.links <==> link in once.links {
      AfterPathsLinks(touched, s, link);
      AfterPathsLinks(touched, once, link);
    }
    assert twice.links == once.links;
  }

  lemma {:induction false} AfterPathsRest(paths: seq<Path>, g: Guest)
    ensures var s := AfterPaths(paths, g);
      s.backup == g.backup && s.script == g.script && s.armed == g.armed && s.transaction == g.transaction
  {
    if paths != [] {
      AfterPathsRest(paths[1..], AfterPath(paths[0], g));
    }
  }

  lemma TailRun(touched: seq<Path>, a: Guest)
    ensures var links := if TouchesNetwork(touched) then a.links + LinksOf(a.files) else a.links;
      RunScript((if TouchesNetwork(touched) then [ReloadNetwork] else []) + [RestartServices, ForgetTransaction], a)
      == (a.(links := links, transaction := None), true)
  {
    var last := [RestartServices, ForgetTransaction];
    var s := if TouchesNetwork(touched) then a.(links := a.links + LinksOf(a.files)) else a;
    assert last[1..] == [ForgetTransaction];
    assert RunScript([ForgetTransaction], s) == (s.(transaction := None), true);
    assert RunScript(last, s) == (s.(transaction := None), true);
    if TouchesNetwork(touched) {
      assert ([ReloadNetwork] + last)[1..] == last;
    } else {
      assert [] + last == last;
    }
  }
}
