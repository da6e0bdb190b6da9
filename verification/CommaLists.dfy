/** commaList (internal/config/config.go): a comma-separated value as a list. */
module CommaLists {
  import opened GoStrings
  import opened Seqs

  /** Without white space at the ends, not empty, and free of commas. */
  predicate Item(s: string) {
    s != "" && Trimmed(s) && ',' !in s
  }

  function TrimEach(parts: seq<string>): seq<string> {
    seq(|parts|, i requires 0 <= i < |parts| => TrimSpace(parts[i]))
  }

  function NonEmpty(): string -> bool {
    s => s != ""
  }

  /** The trimmed parts between the commas, without the empty ones. */
  function CommaListSpec(value: string): seq<string> {
    Filter(TrimEach(Split(value, ',')), NonEmpty())
  }

  method CommaList(value: string) returns (result: seq<string>)
    ensures result == CommaListSpec(value)
  {
    if value == "" {
      FilterNone(TrimEach(Split(value, ',')), NonEmpty());
      return [];
    }
    var parts := Split(value, ',');
    result := [];
    for i := 0 to |parts|
      invariant result == Filter(TrimEach(parts[..i]), NonEmpty())
    {
      var item := TrimSpace(parts[i]);
      OneMorePart(parts, i);
      if item != "" {
        result := result + [item];
      }
    }
    assert parts[..|parts|] == parts;
  }

  lemma OneMorePart(parts: seq<string>, i: nat)
    requires i < |parts|
    ensures Filter(TrimEach(parts[..i+1]), NonEmpty())
            == Filter(TrimEach(parts[..i]), NonEmpty())
               + if TrimSpace(parts[i]) != "" then [TrimSpace(parts[i])] else []
  {
    assert TrimEach(parts[..i+1]) == TrimEach(parts[..i]) + [TrimSpace(parts[i])];
    FilterLast(TrimEach(parts[..i]), TrimSpace(parts[i]), NonEmpty());
  }

  /** Everything on the list is a proper item. */
  lemma ListHoldsItems(value: string)
    ensures forall s :: s in CommaListSpec(value) ==> Item(s)
  {
    var parts := Split(value, ',');
    SplitSeparates(value, ',');
    forall s | s in CommaListSpec(value) ensures Item(s) {
      assert NonEmpty()(s);
      var i :| 0 <= i < |parts| && TrimEach(parts)[i] == s;
      assert parts[i] in parts;
      TrimSpaceTrims(parts[i]);
    }
  }

  /** Every list of proper items is recovered from its join, in order. */
  lemma JoinThenList(items: seq<string>)
    requires forall s :: s in items ==> Item(s)
    ensures CommaListSpec(Join(items, ",")) == items
  {
    if items == [] {
      FilterNone(TrimEach(Split("", ',')), NonEmpty());
    } else {
      SplitJoin(items, ',');
      forall i | 0 <= i < |items| ensures TrimSpace(items[i]) == items[i] {
        assert items[i] in items;
        TrimSpaceFixes(items[i]);
      }
      assert TrimEach(items) == items;
      FilterAll(items, NonEmpty());
    }
  }

  /** Joining a list and reading it again gives the same list. */
  lemma ListThenJoin(value: string)
    ensures CommaListSpec(Join(CommaListSpec(value), ",")) == CommaListSpec(value)
  {
    ListHoldsItems(value);
    JoinThenList(CommaListSpec(value));
  }

  /** The part is the item with white space around it. */
  ghost predicate Pads(part: string, item: string) {
    exists left, right :: Wraps(part, item, left, right)
  }

  /** White space around the parts makes no difference: any texts that trim to the items give the items. */
  lemma PaddedJoinThenList(parts: seq<string>, items: seq<string>)
    requires |parts| == |items| && forall s :: s in items ==> Item(s)
    requires forall i :: 0 <= i < |items| ==> Pads(parts[i], items[i])
    ensures CommaListSpec(Join(parts, ",")) == items
  {
    if items == [] {
      JoinThenList(items);
    } else {
      forall i | 0 <= i < |items| ensures TrimSpace(parts[i]) == items[i] && ',' !in parts[i] {
        assert items[i] in items;
        TrimSpaceExactly(parts[i], items[i]);
        var left, right :| Wraps(parts[i], items[i], left, right);
        SpaceIsBlank(',');
      }
      SplitJoin(parts, ',');
      assert TrimEach(parts) == items;
      FilterAll(items, NonEmpty());
    }
  }

  /** The parts of a text between its commas, each without the white space around it, and only those not empty. */
  lemma ListedExactly(value: string, parts: seq<string>, s: string)
    requires parts != [] && value == Join(parts, ",") && forall p :: p in parts ==> ',' !in p
    ensures s in CommaListSpec(value)
            <==> s != "" && exists i :: 0 <= i < |parts| && Pads(parts[i], s)
  {
    SplitJoin(parts, ',');
    var each := TrimEach(parts);
    if s in CommaListSpec(value) {
      assert NonEmpty()(s);
      var i :| 0 <= i < |each| && each[i] == s;
      TrimSpaceExactly(parts[i], s);
      assert Pads(parts[i], s);
    }
    if s != "" && exists i :: 0 <= i < |parts| && Pads(parts[i], s) {
      var i :| 0 <= i < |parts| && Pads(parts[i], s);
      TrimSpaceExactly(parts[i], s);
      assert each[i] in each;
    }
  }

  /** Items joined with a comma and a space are read back. */
  lemma SpacedJoinThenList(items: seq<string>)
    requires forall s :: s in items ==> Item(s)
    ensures CommaListSpec(Join(items, ", ")) == items
  {
    if items == [] {
      JoinThenList(items);
    } else {
      var parts := Spaced(items);
      SpacedJoins(items);
      forall i | 0 <= i < |items| ensures Pads(parts[i], items[i]) {
        assert items[i] in items;
        ItemWraps(items[i]);
        assert parts[i] == if i == 0 then items[i] else " " + items[i];
      }
      PaddedJoinThenList(parts, items);
    }
  }

  lemma ItemWraps(item: string)
    requires Item(item)
    ensures Pads(item, item) && Pads(" " + item, item)
  {
    SpaceIsBlank(' ');
    SpaceIsBlank(item[0]);
    SpaceIsBlank(item[|item|-1]);
    assert Wraps(item, item, "", "") by { assert "" + item + "" == item; }
    assert Wraps(" " + item, item, " ", "");
  }

  /** All items but the first behind a space. */
  function Spaced(items: seq<string>): (parts: seq<string>)
    ensures |parts| == |items|
    ensures forall i :: 0 <= i < |items| ==> parts[i] == if i == 0 then items[0] else " " + items[i]
  {
    seq(|items|, i requires 0 <= i < |items| => if i == 0 then items[0] else " " + items[i])
  }

  lemma {:induction false} SpacedJoins(items: seq<string>)
    requires items != []
    ensures Join(Spaced(items), ",") == Join(items, ", ")
  {
    if |items| > 1 {
      var rest := Spaced(items)[1..];
      SpacedJoins(items[1..]);
      SpaceInFrontJoins(Spaced(items[1..]), rest);
      assert ", " + Join(items[1..], ", ") == "," + (" " + Join(items[1..], ", "));
    }
  }

  lemma SpaceInFrontJoins(parts: seq<string>, spaced: seq<string>)
    requires parts != [] && spaced != [] && spaced == [" " + parts[0]] + parts[1..]
    ensures Join(spaced, ",") == " " + Join(parts, ",")
  {
    assert spaced[1..] == parts[1..];
    if |parts| > 1 {
      assert " " + parts[0] + "," + Join(parts[1..], ",") == " " + (parts[0] + "," + Join(parts[1..], ","));
    }
  }
}
