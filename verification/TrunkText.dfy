/** Reading and rewriting the `trunks=` field of a container's network property string. */
module TrunkText {
  import opened Base
  import opened Decimal
  import opened Strings

  const FIELD := "trunks="

  predicate IsTrunks(field: string) {
    |FIELD| <= |field| && field[..|FIELD|] == FIELD
  }

  function Sorted(vlans: seq<int>): seq<int> { SortBy(Identity, vlans) }

  function Drop(fields: seq<string>): seq<string> {
    if fields == [] then []
    else (if IsTrunks(fields[0]) then [] else [fields[0]]) + Drop(fields[1..])
  }

  function FirstTrunks(fields: seq<string>): Option<string> {
    if fields == [] then None
    else if IsTrunks(fields[0]) then Some(fields[0][|FIELD|..])
    else FirstTrunks(fields[1..])
  }

  /** Empty items are skipped; an item that is not a number is an error. */
  function Numbers(items: seq<string>): Option<seq<int>> {
    if items == [] then Some([])
    else if items[0] == "" then Numbers(items[1..])
    else if !IsNumeral(items[0]) then None
    else match Numbers(items[1..])
      case None => None
      case Some(rest) => Some([Value(items[0]) as int] + rest)
  }

  /** The sorted VLAN list of the first `trunks=` field; no field means no VLANs. */
  function ParseTrunks(net1: string): Option<seq<int>> {
    match FirstTrunks(Split(net1, ','))
    case None => Some([])
    case Some(value) =>
      match Numbers(Split(value, ';'))
      case None => None
      case Some(vlans) => Some(Sorted(vlans))
  }

  function Texts(vlans: seq<nat>): seq<string> {
    seq(|vlans|, k requires 0 <= k < |vlans| => Text(vlans[k]))
  }

  /** Every `trunks=` field goes; one is appended unless the list renders empty. */
  function WithTrunks(net1: string, vlans: seq<nat>): string {
    var rendered := Join(Texts(vlans), ';');
    var fields := Drop(Split(net1, ','));
    Join(if rendered == "" then fields else fields + [FIELD + rendered], ',')
  }

  function OtherFields(net1: string): seq<string> { Drop(Split(net1, ',')) }

  /** Reading succeeds exactly when every non-empty item is a number, and gives those numbers. */
  lemma {:induction false} NumbersExactly(items: seq<string>)
    ensures Numbers(items).Some? <==> forall t :: t in items ==> t == "" || IsNumeral(t)
    ensures Numbers(items).Some? ==>
      forall v :: v in Numbers(items).value <==> exists t :: t in items && IsNumeral(t) && Value(t) == v
  {
    if items != [] {
      var rest := items[1..];
      assert items == [items[0]] + rest;
      NumbersExactly(rest);
      if Numbers(items).Some? {
        forall v
          ensures v in Numbers(items).value <==> exists t :: t in items && IsNumeral(t) && Value(t) == v
        {
          assert v in Numbers(items).value <==>
            (items[0] != "" && Value(items[0]) == v) || v in Numbers(rest).value;
        }
      }
    }
  }

  /** A string reads as no VLANs without the field, and as the numbers in the value of its first one otherwise. */
  lemma ParseExactly(net1: string)
    ensures var fields := Split(net1, ',');
      if !exists k :: 0 <= k < |fields| && IsTrunks(fields[k]) then ParseTrunks(net1) == Some([])
      else exists k :: FirstTrunksAt(fields, k) && Reads(ParseTrunks(net1), Split(fields[k][|FIELD|..], ';'))
  {
    var fields := Split(net1, ',');
    FirstTrunksExactly(fields);
    if FirstTrunks(fields).Some? {
      var k :| FirstTrunksAt(fields, k) && FirstTrunks(fields) == Some(fields[k][|FIELD|..]);
      var items := Split(fields[k][|FIELD|..], ';');
      NumbersExactly(items);
      if Numbers(items).Some? { SortByKeeps(Identity, Numbers(items).value); }
      assert Reads(ParseTrunks(net1), items) && IsTrunks(fields[k]);
    } else {
      assert ParseTrunks(net1) == Some([]);
    }
  }

  ghost predicate FirstTrunksAt(fields: seq<string>, k: int) {
    0 <= k < |fields| && IsTrunks(fields[k]) && forall j :: 0 <= j < k ==> !IsTrunks(fields[j])
  }

  /** Sorted, and the numbers among the items; nothing at all when one of them is not a number. */
  ghost predicate Reads(r: Option<seq<int>>, items: seq<string>) {
    && (r.Some? <==> forall t :: t in items ==> t == "" || IsNumeral(t))
    && (r.Some? ==> SortedBy(Identity, r.value))
    && (r.Some? ==> forall v :: v in r.value <==> exists t :: t in items && IsNumeral(t) && Value(t) == v)
  }

  lemma {:induction false} FirstTrunksExactly(fields: seq<string>)
    ensures FirstTrunks(fields).None? ==> forall k :: 0 <= k < |fields| ==> !IsTrunks(fields[k])
    ensures FirstTrunks(fields).Some? ==>
      exists k :: FirstTrunksAt(fields, k) && FirstTrunks(fields) == Some(fields[k][|FIELD|..])
  {
    if fields != [] {
      if IsTrunks(fields[0]) {
        assert FirstTrunksAt(fields, 0);
      } else {
        var rest := fields[1..];
        FirstTrunksExactly(rest);
        if FirstTrunks(rest).Some? {
          var k :| FirstTrunksAt(rest, k) && FirstTrunks(rest) == Some(rest[k][|FIELD|..]);
          forall j | 0 <= j < k + 1 ensures !IsTrunks(fields[j]) {
            if j > 0 { assert rest[j - 1] == fields[j]; }
          }
          assert FirstTrunksAt(fields, k + 1);
        } else {
          forall k | 0 <= k < |fields| ensures !IsTrunks(fields[k]) {
            if k > 0 { assert rest[k - 1] == fields[k]; }
          }
        }
      }
    }
  }

  // ---- the two are inverse -----------------------------------------------------------------------

  lemma {:induction false} NumbersOfTexts(vlans: seq<nat>)
    ensures Numbers(Texts(vlans)) == Some(vlans)
  {
    if vlans != [] {
      ValueOfDecimal(vlans[0]);
      assert Texts(vlans)[1..] == Texts(vlans[1..]);
      NumbersOfTexts(vlans[1..]);
      assert vlans == [vlans[0]] + vlans[1..];
    }
  }

  lemma DigitsFree(n: nat, c: char)
    requires !IsDecimalDigit(c)
    ensures Free(Text(n), c)
  {
    DecimalIsNumeral(n);
  }

  lemma {:induction false} JoinedFree(fields: seq<string>, separator: char, c: char)
    requires c != separator && AllFree(fields, c)
    ensures Free(Join(fields, separator), c)
  {
    if |fields| > 1 {
      JoinedFree(fields[1..], separator, c);
    }
  }

  lemma {:induction false} DropFree(fields: seq<string>, c: char)
    requires AllFree(fields, c)
    ensures AllFree(Drop(fields), c)
  {
    if fields != [] {
      DropFree(fields[1..], c);
    }
  }

  lemma {:induction false} DropTwice(fields: seq<string>, field: string)
    requires IsTrunks(field)
    ensures Drop(Drop(fields)) == Drop(fields) && Drop(Drop(fields) + [field]) == Drop(fields)
    ensures FirstTrunks(Drop(fields)) == None && FirstTrunks(Drop(fields) + [field]) == Some(field[|FIELD|..])
  {
    if fields == [] {
      assert [field][1..] == [];
    } else {
      DropTwice(fields[1..], field);
      var rest := Drop(fields[1..]);
      if IsTrunks(fields[0]) {
        assert Drop(fields) == rest;
      } else {
        var kept := [fields[0]] + rest;
        assert Drop(fields) == kept;
        assert kept[1..] == rest;
        assert (kept + [field])[1..] == rest + [field];
      }
    }
  }

  /** A rewritten string splits back into the other fields, in their order, and the new list. */
  lemma RewrittenFields(net1: string, vlans: seq<nat>)
    requires vlans != []
    ensures Split(WithTrunks(net1, vlans), ',') == OtherFields(net1) + [FIELD + Join(Texts(vlans), ';')]
    ensures Split(Join(Texts(vlans), ';'), ';') == Texts(vlans)
  {
    var rendered, fields := Join(Texts(vlans), ';'), OtherFields(net1);
    forall k | 0 <= k < |vlans|
      ensures Free(Texts(vlans)[k], ';') && Free(Texts(vlans)[k], ',') && Texts(vlans)[k] != ""
    {
      DigitsFree(vlans[k], ';');
      DigitsFree(vlans[k], ',');
      DecimalIsNumeral(vlans[k]);
    }
    SplitJoin(Texts(vlans), ';');
    JoinedFree(Texts(vlans), ';', ',');
    assert rendered != "" by { assert Texts(vlans)[0] != ""; }
    SplitFree(net1, ',');
    DropFree(Split(net1, ','), ',');
    assert FIELD == "trunks=";
    assert Free(FIELD + rendered, ',');
    SplitJoin(fields + [FIELD + rendered], ',');
  }

  /** Reading back a rewritten string gives the list that was written, and leaves every other field as it was. */
  lemma TrunksRoundTrip(net1: string, vlans: seq<nat>)
    requires vlans != []
    ensures ParseTrunks(WithTrunks(net1, vlans)) == Some(Sorted(vlans))
    ensures OtherFields(WithTrunks(net1, vlans)) == OtherFields(net1)
  {
    RewrittenFields(net1, vlans);
    var field := FIELD + Join(Texts(vlans), ';');
    assert field[|FIELD|..] == Join(Texts(vlans), ';');
    DropTwice(Split(net1, ','), field);
    NumbersOfTexts(vlans);
    assert FirstTrunks(Split(WithTrunks(net1, vlans), ',')) == Some(Join(Texts(vlans), ';'));
    assert Numbers(Split(Join(Texts(vlans), ';'), ';')) == Some(vlans);
  }

  /** The empty list takes the field away: nothing is read back, and the other fields stay in their order. */
  lemma EmptyListClears(net1: string)
    ensures ParseTrunks(WithTrunks(net1, [])) == Some([])
    ensures WithTrunks(net1, []) == Join(OtherFields(net1), ',')
    ensures OtherFields(net1) != [] ==> Split(WithTrunks(net1, []), ',') == OtherFields(net1)
  {
    var kept := OtherFields(net1);
    assert Join(Texts([]), ';') == "";
    SplitFree(net1, ',');
    DropFree(Split(net1, ','), ',');
    DropTwice(Split(net1, ','), FIELD);
    if kept == [] {
      assert FirstTrunks([""]) == None;
    } else {
      SplitJoin(kept, ',');
    }
  }

  /** Rewriting twice is rewriting once with the later list. */
  lemma RewriteOverwrites(net1: string, first: seq<nat>, second: seq<nat>)
    requires first != []
    ensures WithTrunks(WithTrunks(net1, first), second) == WithTrunks(net1, second)
  {
    TrunksRoundTrip(net1, first);
  }
}
