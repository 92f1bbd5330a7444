/** Shared vocabulary: failure-carrying results and the two sorts the control plane relies on. */
module Base {

  datatype Option<+T> = None | Some(value: T)

  datatype Result<+T, +E> = Ok(value: T) | Err(error: E)

  ghost predicate Distinct<T>(s: seq<T>) {
    forall i, j :: 0 <= i < j < |s| ==> s[i] != s[j]
  }

  /** The sequence lists exactly the elements of the set, each once, in some order. */
  ghost predicate Lists<T(!new)>(s: seq<T>, elements: set<T>) {
    Distinct(s) && (forall x :: x in s <==> x in elements)
  }

  // ---- sorting by an integer key -------------------------------------------------------------

  function InsertBy<T>(key: T -> int, x: T, s: seq<T>): seq<T> {
    if s == [] || key(x) < key(s[0]) then [x] + s else [s[0]] + InsertBy(key, x, s[1..])
  }

  /** Stable: an element is inserted behind every element with an equal key. */
  function SortBy<T>(key: T -> int, s: seq<T>): seq<T> {
    if s == [] then [] else InsertBy(key, s[|s| - 1], SortBy(key, s[..|s| - 1]))
  }

  ghost predicate SortedBy<T>(key: T -> int, s: seq<T>) {
    forall i, j :: 0 <= i < j < |s| ==> key(s[i]) <= key(s[j])
  }

  lemma {:induction false} InsertByElements<T>(key: T -> int, x: T, s: seq<T>)
    ensures multiset(InsertBy(key, x, s)) == multiset(s) + multiset{x}
  {
    if s == [] || key(x) < key(s[0]) {
    } else {
      InsertByElements(key, x, s[1..]);
      assert s == [s[0]] + s[1..];
    }
  }

  lemma ConsSorted<T>(key: T -> int, x: T, s: seq<T>)
    requires SortedBy(key, s) && (s != [] ==> key(x) <= key(s[0]))
    ensures SortedBy(key, [x] + s)
  { }

  lemma {:induction false} InsertByKeeps<T>(key: T -> int, x: T, s: seq<T>)
    requires SortedBy(key, s)
    ensures SortedBy(key, InsertBy(key, x, s))
    ensures multiset(InsertBy(key, x, s)) == multiset(s) + multiset{x}
  {
    InsertByElements(key, x, s);
    if s == [] || key(x) < key(s[0]) {
      ConsSorted(key, x, s);
    } else {
      TailSorted(key, s);
      InsertByKeeps(key, x, s[1..]);
      var rest := InsertBy(key, x, s[1..]);
      assert rest[0] == x || rest[0] == s[1];
      ConsSorted(key, s[0], rest);
    }
  }

  lemma {:induction false} SortByKeeps<T>(key: T -> int, s: seq<T>)
    ensures SortedBy(key, SortBy(key, s))
    ensures multiset(SortBy(key, s)) == multiset(s)
    ensures |SortBy(key, s)| == |s|
    ensures forall x :: x in SortBy(key, s) <==> x in s
  {
    if s != [] {
      SortByKeeps(key, s[..|s| - 1]);
      InsertByKeeps(key, s[|s| - 1], SortBy(key, s[..|s| - 1]));
      assert s == s[..|s| - 1] + [s[|s| - 1]];
    }
    assert |SortBy(key, s)| == |multiset(SortBy(key, s))| == |multiset(s)| == |s|;
    forall x ensures x in SortBy(key, s) <==> x in s {
      assert x in multiset(SortBy(key, s)) <==> x in multiset(s);
    }
  }

  ghost predicate KeysDistinct<T>(key: T -> int, s: seq<T>) {
    forall i, j :: 0 <= i < j < |s| ==> key(s[i]) != key(s[j])
  }

  lemma TailSorted<T>(key: T -> int, s: seq<T>)
    requires SortedBy(key, s) && s != []
    ensures SortedBy(key, s[1..])
    ensures KeysDistinct(key, s) ==> KeysDistinct(key, s[1..])
  {
    var t := s[1..];
    forall i, j | 0 <= i < j < |t| ensures key(t[i]) <= key(t[j]) {
      assert t[i] == s[i + 1] && t[j] == s[j + 1];
    }
    if KeysDistinct(key, s) {
      forall i, j | 0 <= i < j < |t| ensures key(t[i]) != key(t[j]) {
        assert t[i] == s[i + 1] && t[j] == s[j + 1];
      }
    }
  }

  lemma TailMultiset<T>(s: seq<T>)
    requires s != []
    ensures multiset(s[1..]) == multiset(s) - multiset{s[0]}
  {
    assert s == [s[0]] + s[1..];
  }

  lemma SameHead<T>(key: T -> int, a: seq<T>, b: seq<T>)
    requires SortedBy(key, a) && SortedBy(key, b)
    requires a != [] && b != [] && multiset(a) == multiset(b)
    requires KeysDistinct(key, a)
    ensures a[0] == b[0]
  {
    assert b[0] in multiset(a) && a[0] in multiset(b);
    var j :| 0 <= j < |a| && a[j] == b[0];
    var k :| 0 <= k < |b| && b[k] == a[0];
    assert key(a[0]) <= key(a[j]);
    assert key(b[0]) <= key(b[k]);
  }

  /** With distinct keys there is only one sorted arrangement, so the input order cannot matter. */
  lemma {:induction false} SortedUnique<T>(key: T -> int, a: seq<T>, b: seq<T>)
    requires SortedBy(key, a) && SortedBy(key, b)
    requires multiset(a) == multiset(b)
    requires KeysDistinct(key, a)
    ensures a == b
  {
    assert |a| == |b| by {
      assert |a| == |multiset(a)| && |b| == |multiset(b)|;
    }
    if a == [] {
    } else {
      var x, y := a[1..], b[1..];
      assert multiset(x) == multiset(y) by {
        SameHead(key, a, b);
        TailMultiset(a);
        TailMultiset(b);
      }
      assert x == y by {
        TailSorted(key, a);
        TailSorted(key, b);
        SortedUnique(key, x, y);
      }
      assert a == [a[0]] + x;
      assert b == [b[0]] + y;
      SameHead(key, a, b);
    }
  }

  /** Whether keys repeat depends on the elements only, not on their order. */
  lemma KeysDistinctSame<T>(key: T -> int, a: seq<T>, b: seq<T>)
    requires multiset(a) == multiset(b)
    ensures KeysDistinct(key, a) <==> KeysDistinct(key, b)
  {
    KeysDistinctElements(key, a);
    KeysDistinctElements(key, b);
    DistinctMultiset(a);
    DistinctMultiset(b);
    forall x ensures x in a <==> x in b {
      assert x in multiset(a) <==> x in multiset(b);
    }
  }

  lemma KeysDistinctElements<T>(key: T -> int, s: seq<T>)
    ensures KeysDistinct(key, s) <==> Distinct(s) && forall x, y :: x in s && y in s && key(x) == key(y) ==> x == y
  {
    if KeysDistinct(key, s) {
      forall x, y | x in s && y in s && key(x) == key(y) ensures x == y {
        var i :| 0 <= i < |s| && s[i] == x;
        var j :| 0 <= j < |s| && s[j] == y;
      }
    }
  }

  lemma SameElements<T>(a: seq<T>, b: seq<T>)
    requires Distinct(a) && Distinct(b)
    requires forall x :: x in a <==> x in b
    ensures multiset(a) == multiset(b)
  {
    DistinctMultiset(a);
    DistinctMultiset(b);
    forall x ensures multiset(a)[x] == multiset(b)[x] {
      assert x in a <==> x in b;
      assert multiset(a)[x] > 0 <==> x in a;
      assert multiset(b)[x] > 0 <==> x in b;
    }
  }

  function Identity(v: int): int { v }

  function Deduplicate<T(==)>(s: seq<T>): seq<T> {
    if s == [] then []
    else
      var front := Deduplicate(s[..|s| - 1]);
      if s[|s| - 1] in front then front else front + [s[|s| - 1]]
  }

  lemma {:induction false} DeduplicateKeeps<T>(s: seq<T>)
    ensures Distinct(Deduplicate(s)) && forall x :: x in Deduplicate(s) <==> x in s
  {
    if s != [] {
      DeduplicateKeeps(s[..|s| - 1]);
      assert s == s[..|s| - 1] + [s[|s| - 1]];
    }
  }

  // ---- sorting strings, as Python's sorted() does ---------------------------------------------

  predicate StringLess(a: string, b: string) {
    if b == "" then false
    else if a == "" then true
    else if a[0] != b[0] then a[0] < b[0]
    else StringLess(a[1..], b[1..])
  }

  function InsertString(x: string, s: seq<string>): seq<string> {
    if s == [] || StringLess(x, s[0]) then [x] + s else [s[0]] + InsertString(x, s[1..])
  }

  function SortStrings(s: seq<string>): seq<string> {
    if s == [] then [] else InsertString(s[0], SortStrings(s[1..]))
  }

  lemma {:induction false} InsertStringKeeps(x: string, s: seq<string>)
    ensures multiset(InsertString(x, s)) == multiset(s) + multiset{x}
  {
    if s == [] || StringLess(x, s[0]) {
    } else {
      InsertStringKeeps(x, s[1..]);
      assert s == [s[0]] + s[1..];
    }
  }

  lemma {:induction false} SortStringsKeeps(s: seq<string>)
    ensures multiset(SortStrings(s)) == multiset(s)
  {
    if s != [] {
      SortStringsKeeps(s[1..]);
      InsertStringKeeps(s[0], SortStrings(s[1..]));
      assert s == [s[0]] + s[1..];
    }
  }

  lemma DistinctMultiset<T>(s: seq<T>)
    ensures Distinct(s) <==> forall x :: multiset(s)[x] <= 1
  {
    if s == [] {
    } else {
      var t := s[1..];
      assert s == [s[0]] + t;
      DistinctMultiset(t);
      if Distinct(s) {
        assert forall i :: 0 <= i < |t| ==> t[i] == s[i + 1];
        assert Distinct(t);
        assert s[0] !in t;
        forall x ensures multiset(s)[x] <= 1 { }
      } else {
        var i, j :| 0 <= i < j < |s| && s[i] == s[j];
        if i == 0 {
          assert t[j - 1] == s[0];
          assert s[0] in t;
          assert multiset(s)[s[0]] >= 2;
        } else {
          assert t[i - 1] == t[j - 1];
          assert !Distinct(t);
          var x :| multiset(t)[x] > 1;
          assert multiset(s)[x] > 1;
        }
      }
    }
  }

  /** Sorting a listing of a set is still a listing of that set. */
  lemma SortStringsLists(s: seq<string>, elements: set<string>)
    requires Lists(s, elements)
    ensures Lists(SortStrings(s), elements)
  {
    SortStringsKeeps(s);
    DistinctMultiset(s);
    DistinctMultiset(SortStrings(s));
    forall x ensures x in SortStrings(s) <==> x in elements {
      assert x in multiset(SortStrings(s)) <==> x in multiset(s);
    }
  }
}
