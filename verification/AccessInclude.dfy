/** The one line the Access applier adds to a file it does not own, and what its rollback does to that file. */
module AccessInclude {
  import opened Base
  import opened Strings

  const INCLUDE := "include \"/etc/nftables.d/*.nft\""
  const FRESH := "#!/usr/sbin/nft -f"

  predicate OccursAt(x: string, s: string, i: int) {
    0 <= i <= |s| - |x| && s[i..i + |x|] == x
  }

  predicate Occurs(x: string, s: string) {
    exists i :: 0 <= i <= |s| - |x| && OccursAt(x, s, i)
  }

  function Terminated(s: string): string {
    if s != "" && s[|s| - 1] == '\n' then s else s + "\n"
  }

  /** `None` is a missing file. Returns the file afterwards and whether the line was added. */
  function EnsureInclude(conf: Option<string>): (Option<string>, bool) {
    var content := if conf.Some? then conf.value else FRESH + "\n";
    if Occurs(INCLUDE, content) then (conf, false)
    else (Some(Terminated(content) + INCLUDE + "\n"), true)
  }

  /** The lines a filter reads: a final newline ends the last line, it does not begin another. */
  function Lines(s: string): seq<string> {
    var fields := Split(s, '\n');
    if fields[|fields| - 1] == "" then fields[..|fields| - 1] else fields
  }

  function Unlines(lines: seq<string>): string {
    if lines == [] then "" else lines[0] + "\n" + Unlines(lines[1..])
  }

  function Without(lines: seq<string>, x: string): seq<string> {
    if lines == [] then []
    else (if Occurs(x, lines[0]) then [] else [lines[0]]) + Without(lines[1..], x)
  }

  /** `grep -vF … > copy && mv copy conf`: nothing is moved when no line is left or the file is missing. */
  function FilterInclude(conf: Option<string>): Option<string> {
    if conf.None? then None
    else
      var kept := Without(Lines(conf.value), INCLUDE);
      if kept == [] then conf else Some(Unlines(kept))
  }

  // ---- splitting into lines and back ------------------------------------------------------------

  lemma {:induction false} UnlinesJoin(lines: seq<string>)
    requires lines != []
    ensures Unlines(lines) == Join(lines, '\n') + "\n"
  {
    if |lines| == 1 {
      assert Unlines(lines[1..]) == "";
    } else {
      UnlinesJoin(lines[1..]);
    }
  }

  lemma {:induction false} FieldOccurs(x: string, fields: seq<string>, k: nat)
    requires k < |fields| && Occurs(x, fields[k])
    ensures Occurs(x, Join(fields, '\n'))
    decreases |fields|
  {
    var whole := Join(fields, '\n');
    if k == 0 {
      var i :| 0 <= i <= |fields[0]| - |x| && OccursAt(x, fields[0], i);
      assert whole[i..i + |x|] == fields[0][i..i + |x|];
      assert OccursAt(x, whole, i);
    } else {
      FieldOccurs(x, fields[1..], k - 1);
      var rest := Join(fields[1..], '\n');
      var i :| 0 <= i <= |rest| - |x| && OccursAt(x, rest, i);
      var at := |fields[0]| + 1 + i;
      assert whole[at..at + |x|] == rest[i..i + |x|];
      assert OccursAt(x, whole, at);
    }
  }

  lemma {:induction false} NothingDropped(lines: seq<string>, x: string)
    requires forall k :: 0 <= k < |lines| ==> !Occurs(x, lines[k])
    ensures Without(lines, x) == lines
  {
    if lines != [] {
      NothingDropped(lines[1..], x);
    }
  }

  lemma {:induction false} WithoutConcat(a: seq<string>, b: seq<string>, x: string)
    ensures Without(a + b, x) == Without(a, x) + Without(b, x)
  {
    if a == [] {
      assert a + b == b;
    } else {
      assert (a + b)[1..] == a[1..] + b;
      WithoutConcat(a[1..], b, x);
    }
  }

  lemma IncludeLine()
    ensures Occurs(INCLUDE, INCLUDE) && Free(INCLUDE, '\n')
  {
    assert OccursAt(INCLUDE, INCLUDE, 0);
    forall k | 0 <= k < |INCLUDE| ensures INCLUDE[k] != '\n' { }
  }

  /** Text without `x` filters to itself, up to a missing final newline. */
  lemma FilterClean(t: string, x: string)
    requires !Occurs(x, t)
    ensures Without(Split(t, '\n'), x) == Split(t, '\n')
    ensures Unlines(Split(t, '\n')) == t + "\n"
  {
    var fields := Split(t, '\n');
    JoinSplit(t, '\n');
    forall k | 0 <= k < |fields| ensures !Occurs(x, fields[k]) {
      if Occurs(x, fields[k]) { FieldOccurs(x, fields, k); }
    }
    NothingDropped(fields, x);
    UnlinesJoin(fields);
  }

  lemma ShorterClean(s: string, t: string, x: string)
    requires !Occurs(x, s) && s == t + "\n"
    ensures !Occurs(x, t)
  {
    if Occurs(x, t) {
      var i :| 0 <= i <= |t| - |x| && OccursAt(x, t, i);
      assert s[i..i + |x|] == t[i..i + |x|];
      assert OccursAt(x, s, i);
    }
  }

  lemma LinesOfAdded(t: string, x: string)
    requires Free(x, '\n')
    ensures Lines(t + "\n" + x + "\n") == Split(t, '\n') + [x]
  {
    SplitOne(x, '\n');
    SplitAppend(x, "", '\n');
    SplitAppend(t, x + "\n" + "", '\n');
    var whole := t + "\n" + x + "\n";
    assert whole == t + "\n" + (x + "\n" + "");
    assert Split(whole, '\n') == Split(t, '\n') + ([x] + [""]);
  }

  /** Adding the line and filtering it out again. */
  lemma AddedThenFiltered(t: string, x: string)
    requires !Occurs(x, t) && Occurs(x, x) && Free(x, '\n')
    ensures Without(Lines(t + "\n" + x + "\n"), x) == Split(t, '\n')
    ensures Unlines(Split(t, '\n')) == t + "\n"
  {
    LinesOfAdded(t, x);
    WithoutConcat(Split(t, '\n'), [x], x);
    FilterClean(t, x);
    assert Without([x], x) == [];
  }

  // ---- main results ---------------------------------------------------------------------------------

  lemma FreshClean()
    ensures !Occurs(INCLUDE, FRESH + "\n")
  {
    assert |FRESH + "\n"| < |INCLUDE|;
  }

  /** When the stage added the line, the rollback leaves the previous text with its last line terminated, and leaves a
      shebang-only file where there was none. So it undoes the addition exactly for files that end in a newline. */
  lemma RollbackUndoesInclude(conf: Option<string>)
    requires EnsureInclude(conf).1
    ensures FilterInclude(EnsureInclude(conf).0) == Some(Terminated(if conf.Some? then conf.value else FRESH))
    ensures FilterInclude(EnsureInclude(conf).0) == conf <==>
      conf.Some? && conf.value != "" && conf.value[|conf.value| - 1] == '\n'
  {
    FreshClean();
    IncludeLine();
    var content := if conf.Some? then conf.value else FRESH + "\n";
    if content != "" && content[|content| - 1] == '\n' {
      var t := content[..|content| - 1];
      assert content == t + "\n";
      ShorterClean(content, t, INCLUDE);
      AddedThenFiltered(t, INCLUDE);
    } else {
      AddedThenFiltered(content, INCLUDE);
    }
  }

  /** A stage that died before adding the line: the filter then finds nothing to remove. */
  lemma RollbackWithoutInclude(s: string)
    requires !Occurs(INCLUDE, s)
    ensures FilterInclude(None) == None
    ensures FilterInclude(Some(s)) == Some(if s == "" then "" else Terminated(s))
  {
    if s != "" {
      var t := if s[|s| - 1] == '\n' then s[..|s| - 1] else s;
      LinesOf(s, t);
      if t != s { ShorterClean(s, t, INCLUDE); }
      FilterClean(t, INCLUDE);
    }
  }

  /** A final newline does not begin another line. */
  lemma LinesOf(s: string, t: string)
    requires s != "" && t == if s[|s| - 1] == '\n' then s[..|s| - 1] else s
    ensures Lines(s) == Split(t, '\n') && Terminated(s) == t + "\n"
  {
    if t == s {
      LastField(s);
    } else {
      assert s == t + "\n" + "";
      SplitAppend(t, "", '\n');
    }
  }

  lemma {:induction false} LastField(s: string)
    requires s != "" && s[|s| - 1] != '\n'
    ensures var fields := Split(s, '\n'); fields[|fields| - 1] != ""
  {
    if |s| > 1 {
      LastField(s[1..]);
    }
  }

  /** Whatever was there, the file ends up with the line that reads the managed rules in; what it held is kept, and a
      file that had the line is not touched. */
  lemma IncludeEnsured(conf: Option<string>)
    ensures var (after, added) := EnsureInclude(conf);
      && (added <==> conf.None? || !Occurs("include \"/etc/nftables.d/*.nft\"", conf.value))
      && (!added ==> after == conf)
      && after.Some? && Occurs("include \"/etc/nftables.d/*.nft\"", after.value)
      && (conf.Some? ==> conf.value <= after.value)
      && (conf.None? ==> "#!/usr/sbin/nft -f\n" <= after.value)
  {
    var content := if conf.Some? then conf.value else FRESH + "\n";
    var after := EnsureInclude(conf).0;
    if conf.None? { FreshClean(); }
    if EnsureInclude(conf).1 {
      var n := |Terminated(content)|;
      assert after.value[n..n + |INCLUDE|] == INCLUDE;
      assert OccursAt(INCLUDE, after.value, n);
    }
  }
}
