/** What a domain name in an allowlist may look like. */
module DomainNames {
  import opened Base
  import opened Decimal
  import opened Strings

  predicate IsSpace(c: char) { c == ' ' || '\t' <= c <= '\r' }
  predicate IsLower(c: char) { 'a' <= c <= 'z' }
  predicate IsAlphanumeric(c: char) { IsLower(c) || IsDecimalDigit(c) }

  function TrimStart(s: string): string {
    if s != "" && IsSpace(s[0]) then TrimStart(s[1..]) else s
  }

  function TrimEnd(s: string): string {
    if s != "" && IsSpace(s[|s| - 1]) then TrimEnd(s[..|s| - 1]) else s
  }

  function LowerChar(c: char): char {
    if 'A' <= c <= 'Z' then 'a' + (c - 'A') else c
  }

  function Lower(s: string): string {
    seq(|s|, i requires 0 <= i < |s| => LowerChar(s[i]))
  }

  predicate IsLabel(s: string) {
    && 1 <= |s| <= 63
    && IsAlphanumeric(s[0]) && IsAlphanumeric(s[|s| - 1])
    && forall i :: 0 <= i < |s| ==> IsAlphanumeric(s[i]) || s[i] == '-'
  }

  predicate IsDomainName(s: string) {
    var labels := Split(s, '.');
    && 1 <= |s| <= 253
    && (forall i :: 0 <= i < |s| ==> s[i] !in ":/\\*" && !IsSpace(s[i]))
    && s[0] != '.' && s[|s| - 1] != '.'
    && |labels| >= 2
    && (forall i :: 0 <= i < |labels| ==> IsLabel(labels[i]))
    && !IsNumeral(labels[|labels| - 1])
  }

  /** Trims and lower-cases; anything that is then not a bare domain name is refused, never repaired. */
  function NormaliseAllowedDomain(s: string): Option<string> {
    var n := Lower(TrimEnd(TrimStart(s)));
    if IsDomainName(n) then Some(n) else None
  }

  lemma {:induction false} JoinCharacters(fields: seq<string>, c: char)
    requires c in Join(fields, '.')
    ensures c == '.' || exists i :: 0 <= i < |fields| && c in fields[i]
  {
    if |fields| > 1 && c != '.' && c !in fields[0] {
      JoinCharacters(fields[1..], c);
      var i :| 0 <= i < |fields[1..]| && c in fields[1..][i];
      assert c in fields[i + 1];
    }
  }

  /** A domain name is already trimmed and lower-case, so normalising twice is normalising once. */
  lemma NormaliseIdempotent(s: string)
    requires NormaliseAllowedDomain(s).Some?
    ensures var n := NormaliseAllowedDomain(s).value; NormaliseAllowedDomain(n) == Some(n)
  {
    var n := NormaliseAllowedDomain(s).value;
    assert TrimEnd(TrimStart(n)) == n;
    forall i | 0 <= i < |n| ensures LowerChar(n[i]) == n[i] {
      JoinSplit(n, '.');
      assert n[i] in n;
      JoinCharacters(Split(n, '.'), n[i]);
    }
    assert Lower(n) == n;
  }

  // ---- what is accepted -----------------------------------------------------------------------------------

  ghost predicate LabelForm(s: string) {
    && 0 < |s| && |s| < 64 && s[0] != '-' && s[|s| - 1] != '-'
    && forall c :: c in s ==> 'a' <= c <= 'z' || '0' <= c <= '9' || c == '-'
  }

  /** At least two labels, the last of which is not a number. */
  ghost predicate NameOf(s: string, labels: seq<string>) {
    && |labels| >= 2 && s == Join(labels, '.') && (forall k :: 0 <= k < |labels| ==> LabelForm(labels[k]))
    && var last := labels[|labels| - 1];
       exists i :: 0 <= i < |last| && !('0' <= last[i] <= '9')
  }

  lemma LabelFormExactly(s: string)
    ensures IsLabel(s) <==> LabelForm(s)
  {
    if IsLabel(s) {
      forall c | c in s ensures IsAlphanumeric(c) || c == '-' {
        var i :| 0 <= i < |s| && s[i] == c;
      }
    }
    if LabelForm(s) {
      forall i | 0 <= i < |s| ensures IsAlphanumeric(s[i]) || s[i] == '-' { assert s[i] in s; }
    }
  }

  lemma NumeralExactly(s: string)
    requires s != ""
    ensures IsNumeral(s) <==> !exists i :: 0 <= i < |s| && !('0' <= s[i] <= '9')
  {
    if !IsNumeral(s) {
      var i :| 0 <= i < |s| && !IsDecimalDigit(s[i]);
      assert !('0' <= s[i] <= '9');
    }
  }

  /** The names an allowlist may hold: at most 253 characters, made of such labels. */
  lemma DomainNameExactly(s: string)
    ensures IsDomainName(s) <==> |s| <= 253 && exists labels :: NameOf(s, labels)
  {
    if IsDomainName(s) {
      var labels := Split(s, '.');
      JoinSplit(s, '.');
      forall k | 0 <= k < |labels| ensures LabelForm(labels[k]) { LabelFormExactly(labels[k]); }
      NumeralExactly(labels[|labels| - 1]);
      assert NameOf(s, labels);
    }
    if |s| <= 253 && exists labels :: NameOf(s, labels) {
      var labels :| NameOf(s, labels);
      NameAccepted(s, labels);
    }
  }

  lemma NameAccepted(s: string, labels: seq<string>)
    requires NameOf(s, labels) && |s| <= 253
    ensures IsDomainName(s)
  {
    LabelsAccepted(labels);
    SplitJoin(labels, '.');
    NumeralExactly(labels[|labels| - 1]);
    Characters(s, labels);
    assert s != "" by { assert Split("", '.') == [""]; }
    NoOuterDots(s, labels);
  }

  lemma LabelsAccepted(labels: seq<string>)
    requires forall k :: 0 <= k < |labels| ==> LabelForm(labels[k])
    ensures AllFree(labels, '.') && forall k :: 0 <= k < |labels| ==> IsLabel(labels[k])
  {
    forall k | 0 <= k < |labels| ensures Free(labels[k], '.') && IsLabel(labels[k]) {
      LabelFormExactly(labels[k]);
    }
  }

  lemma Characters(s: string, labels: seq<string>)
    requires s == Join(labels, '.') && forall k :: 0 <= k < |labels| ==> LabelForm(labels[k])
    ensures forall i :: 0 <= i < |s| ==> s[i] !in ":/\\*" && !IsSpace(s[i])
  {
    forall i | 0 <= i < |s| ensures s[i] == '.' || 'a' <= s[i] <= 'z' || '0' <= s[i] <= '9' || s[i] == '-' {
      assert s[i] in s;
      JoinCharacters(labels, s[i]);
    }
  }

  lemma NoOuterDots(s: string, labels: seq<string>)
    requires s != "" && Split(s, '.') == labels && labels[0] != "" && labels[|labels| - 1] != ""
    ensures s[0] != '.' && s[|s| - 1] != '.'
  {
    if s[|s| - 1] == '.' { LastEmpty(s[..|s| - 1], s); }
  }

  lemma LastEmpty(t: string, s: string)
    requires s == t + "."
    ensures var labels := Split(s, '.'); labels[|labels| - 1] == ""
  {
    assert s == t + ['.'] + "";
    SplitAppend(t, "", '.');
  }

  ghost predicate Blank(s: string) { forall i :: 0 <= i < |s| ==> IsSpace(s[i]) }

  ghost predicate SameButCase(v: string, n: string) {
    |v| == |n| && forall i :: 0 <= i < |n| ==>
      v[i] == n[i] || ('a' <= n[i] <= 'z' && v[i] as int - 'A' as int == n[i] as int - 'a' as int)
  }

  lemma {:induction false} TrimsStart(a: string, s: string)
    requires Blank(a) && s != "" && !IsSpace(s[0])
    ensures TrimStart(a + s) == s
  {
    if a == "" {
      assert a + s == s;
    } else {
      assert (a + s)[1..] == a[1..] + s;
      TrimsStart(a[1..], s);
    }
  }

  lemma {:induction false} TrimsEnd(s: string, b: string)
    requires Blank(b) && s != "" && !IsSpace(s[|s| - 1])
    ensures TrimEnd(s + b) == s
  {
    if b == "" {
      assert s + b == s;
    } else {
      assert (s + b)[..|s + b| - 1] == s + b[..|b| - 1];
      TrimsEnd(s, b[..|b| - 1]);
    }
  }

  /** However a domain name is cased and whatever blanks stand around it, it is accepted as what it is. */
  lemma NormaliseAccepts(a: string, v: string, b: string, n: string)
    requires IsDomainName(n) && SameButCase(v, n) && Blank(a) && Blank(b)
    ensures NormaliseAllowedDomain(a + v + b) == Some(n)
  {
    forall i | 0 <= i < |n| ensures !IsSpace(v[i]) && LowerChar(v[i]) == n[i] {
      JoinSplit(n, '.');
      assert n[i] in n;
      JoinCharacters(Split(n, '.'), n[i]);
    }
    assert a + v + b == a + (v + b);
    TrimsStart(a, v + b);
    TrimsEnd(v, b);
    assert Lower(v) == n;
  }
}
