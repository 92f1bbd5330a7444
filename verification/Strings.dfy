/** Splitting and joining on a one-character separator, as JavaScript and Python both do it. */
module Strings {

  predicate Free(s: string, separator: char) { separator !in s }

  /** `s.split(separator)`: always at least one field. */
  function Split(s: string, separator: char): (r: seq<string>)
    ensures r != []
  {
    if s == "" then [""]
    else
      var rest := Split(s[1..], separator);
      if s[0] == separator then [""] + rest else [[s[0]] + rest[0]] + rest[1..]
  }

  /** `separator.join(fields)`. */
  function Join(fields: seq<string>, separator: char): string {
    if fields == [] then ""
    else if |fields| == 1 then fields[0]
    else fields[0] + [separator] + Join(fields[1..], separator)
  }

  ghost predicate AllFree(fields: seq<string>, separator: char) {
    forall i :: 0 <= i < |fields| ==> Free(fields[i], separator)
  }

  lemma {:induction false} SplitFree(s: string, separator: char)
    ensures AllFree(Split(s, separator), separator)
  {
    if s != "" {
      SplitFree(s[1..], separator);
    }
  }

  lemma {:induction false} SplitOne(s: string, separator: char)
    requires Free(s, separator)
    ensures Split(s, separator) == [s]
  {
    if s != "" {
      SplitOne(s[1..], separator);
      assert [s[0]] + s[1..] == s;
    }
  }

  lemma {:induction false} SplitCons(head: string, rest: string, separator: char)
    requires Free(head, separator)
    ensures Split(head + [separator] + rest, separator) == [head] + Split(rest, separator)
  {
    var s := head + [separator] + rest;
    if head == "" {
      assert s[1..] == rest;
    } else {
      assert s[1..] == head[1..] + [separator] + rest;
      SplitCons(head[1..], rest, separator);
      assert [head[0]] + head[1..] == head;
    }
  }

  /** Splitting what was joined gives the fields back, provided none contains the separator. */
  lemma {:induction false} SplitJoin(fields: seq<string>, separator: char)
    requires fields != [] && AllFree(fields, separator)
    ensures Split(Join(fields, separator), separator) == fields
  {
    if |fields| == 1 {
      SplitOne(fields[0], separator);
    } else {
      SplitJoin(fields[1..], separator);
      SplitCons(fields[0], Join(fields[1..], separator), separator);
    }
  }

  /** Joining what was split gives the text back. */
  lemma {:induction false} JoinSplit(s: string, separator: char)
    ensures Join(Split(s, separator), separator) == s
  {
    if s != "" {
      var rest := Split(s[1..], separator);
      JoinSplit(s[1..], separator);
      if s[0] == separator {
        assert ([""] + rest)[1..] == rest;
      } else {
        assert ([[s[0]] + rest[0]] + rest[1..])[1..] == rest[1..];
      }
    }
  }

  lemma {:induction false} SplitAppend(a: string, b: string, c: char)
    ensures Split(a + [c] + b, c) == Split(a, c) + Split(b, c)
  {
    if a == "" {
      assert (a + [c] + b)[1..] == b;
    } else {
      assert (a + [c] + b)[1..] == a[1..] + [c] + b;
      SplitAppend(a[1..], b, c);
    }
  }

  lemma {:induction false} JoinAppend(a: seq<string>, b: seq<string>, c: char)
    requires a != [] && b != []
    ensures Join(a + b, c) == Join(a, c) + [c] + Join(b, c)
  {
    if |a| == 1 {
      assert (a + b)[1..] == b;
    } else {
      assert (a + b)[1..] == a[1..] + b;
      JoinAppend(a[1..], b, c);
    }
  }
}
