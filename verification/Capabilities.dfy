/** The check that the capabilities of a runtime plan are exactly those of this bridge. */
module Capabilities {
  import opened Wrappers
  import opened Bytes

  type Name = seq<Byte>

  function ExpectedCapabilities(): (names: seq<Name>)
    ensures |names| == 6
  {
    [ Ascii("callback-logs-v1"),
      Ascii("kafka-publisher-callback-v1"),
      Ascii("observation-cancellation-v1"),
      Ascii("scenario-context-v2"),
      Ascii("scenario-request-cancellation-v1"),
      Ascii("threshold-predicate-callback-v1") ]
  }

  /** The first byte that differs decides. */
  lemma {:induction false} LessAt(a: Name, b: Name, k: nat)
    requires k < |a| && k < |b| && a[k] < b[k]
    requires forall i :: 0 <= i < k ==> a[i] == b[i]
    ensures Less(a, b)
  {
    if k > 0 { LessAt(a[1..], b[1..], k - 1); }
  }

  /** Of the two names that begin alike, the context one is smaller. */
  lemma ContextBeforeRequest()
    ensures Less(Ascii("scenario-context-v2"), Ascii("scenario-request-cancellation-v1"))
  {
    var context, request := "scenario-context-v2", "scenario-request-cancellation-v1";
    forall i | 0 <= i < 9 ensures context[i] == request[i] { }
    LessAt(Ascii(context), Ascii(request), 9);
  }

  /** Every built-in name but the first is above the one before it. */
  lemma ExpectedNeighbours(i: nat)
    requires 1 <= i < 6
    ensures Less(ExpectedCapabilities()[i - 1], ExpectedCapabilities()[i])
  {
    var e := ExpectedCapabilities();
    if i == 4 {
      ContextBeforeRequest();
    } else {
      LessAt(e[i - 1], e[i], 0);
    }
  }

  /** The built-in list is strictly sorted and names no empty capability. */
  lemma ExpectedIsStrict()
    ensures StrictlySorted(ExpectedCapabilities()) && [] !in ExpectedCapabilities()
  {
    var e := ExpectedCapabilities();
    forall i | 1 <= i < |e| ensures !Less(e[i], e[i - 1]) && e[i] != e[i - 1] {
      ExpectedNeighbours(i);
      LessTotal(e[i - 1], e[i]);
    }
    forall i, j | 0 <= i < j < |e| ensures Less(e[i], e[j]) { SortedIsStrict(e, i, j); }
    forall i | 0 <= i < |e| ensures e[i] != [] { if i > 0 { ExpectedNeighbours(i); } }
  }

  /** No neighbour is smaller than the one before (`slices.IsSorted`). */
  predicate Sorted(names: seq<Name>) {
    forall i :: 1 <= i < |names| ==> !Less(names[i], names[i - 1])
  }

  predicate NoNeighboursEqual(names: seq<Name>) {
    forall i :: 1 <= i < |names| ==> names[i] != names[i - 1]
  }

  predicate Within(left: seq<Name>, right: seq<Name>) {
    forall name :: name in left ==> name in right
  }

  ghost predicate StrictlySorted(names: seq<Name>) {
    forall i, j :: 0 <= i < j < |names| ==> Less(names[i], names[j])
  }

  /** The first name equal to the one before it; the empty name also stands for none. */
  method FirstDuplicate(names: seq<Name>) returns (duplicate: Name)
    ensures NoNeighboursEqual(names) ==> duplicate == []
    ensures !NoNeighboursEqual(names) ==>
              exists i :: 1 <= i < |names| && duplicate == names[i] == names[i - 1] && NoNeighboursEqual(names[..i])
  {
    var i := 1;
    while i < |names|
      invariant 1 <= i
      invariant forall j :: 1 <= j < i && j < |names| ==> names[j] != names[j - 1]
    {
      if names[i] == names[i - 1] { return names[i]; }
      i := i + 1;
    }
    return [];
  }

  /** The first name of `left` that `right` lacks; the empty name also stands for none. */
  method FirstSetDifference(left: seq<Name>, right: seq<Name>) returns (missing: Name)
    ensures Within(left, right) ==> missing == []
    ensures !Within(left, right) ==>
              exists i :: 0 <= i < |left| && missing == left[i] && left[i] !in right && Within(left[..i], right)
  {
    var rightSet: set<Name> := {};
    var i := 0;
    while i < |right|
      invariant 0 <= i <= |right|
      invariant rightSet == set name | name in right[..i]
    {
      rightSet := rightSet + {right[i]};
      assert right[..i + 1] == right[..i] + [right[i]];
      i := i + 1;
    }
    assert right[..i] == right;
    i := 0;
    while i < |left|
      invariant 0 <= i <= |left|
      invariant Within(left[..i], right)
    {
      if left[i] !in rightSet {
        assert left[i] in left;
        return left[i];
      }
      assert left[..i + 1] == left[..i] + [left[i]];
      i := i + 1;
    }
    assert left[..i] == left;
    return [];
  }

  datatype CapabilityError = NotSorted | Duplicate(name: Name) | Missing(name: Name) | Unexpected(name: Name) | Mismatch

  /** The lists that pass every named check without being the expected one. They begin with the empty name, which
      the helpers cannot tell from their answer for none. */
  predicate Slips(actual: seq<Name>, expected: seq<Name>) {
    && Sorted(actual)
    && actual != [] && actual[0] == []
    && (NoNeighboursEqual(actual) || (2 <= |actual| && actual[1] == []))
    && Within(expected, actual)
  }

  /** `validateRuntimeCapabilities`: accepts exactly the expected list, and ends in its last branch exactly for the
      lists that slip past the named checks. */
  method ValidateCapabilities(actual: seq<Name>) returns (error: Option<CapabilityError>)
    ensures error == None <==> actual == ExpectedCapabilities()
    ensures error == Some(Mismatch) <==> Slips(actual, ExpectedCapabilities())
    ensures error == Some(NotSorted) <==> !Sorted(actual)
    ensures forall name :: error == Some(Duplicate(name)) ==>
              name != [] && exists i :: 1 <= i < |actual| && name == actual[i] == actual[i - 1]
    ensures forall name :: error == Some(Missing(name)) ==> name in ExpectedCapabilities() && name !in actual
    ensures forall name :: error == Some(Unexpected(name)) ==>
              name != [] && name in actual && name !in ExpectedCapabilities() && Within(ExpectedCapabilities(), actual)
  {
    var expected := ExpectedCapabilities();
    ExpectedIsStrict();
    if actual == expected { StrictIsSorted(actual); }
    if !Sorted(actual) { return Some(NotSorted); }
    var duplicate := FirstDuplicate(actual);
    if duplicate != [] {
      DuplicateDoesNotSlip(actual, duplicate);
      return Some(Duplicate(duplicate));
    }
    var missing := FirstSetDifference(expected, actual);
    if missing != [] { return Some(Missing(missing)); }
    var unexpected := FirstSetDifference(actual, expected);
    if unexpected != [] {
      return Some(Unexpected(unexpected));
    }
    if actual != expected {
      PassedEverything(actual, expected, duplicate, unexpected);
      return Some(Mismatch);
    }
    return None;
  }

  /** A list in which the first repeated name is not empty does not slip. */
  lemma DuplicateDoesNotSlip(actual: seq<Name>, duplicate: Name)
    requires duplicate != []
    requires exists i :: 1 <= i < |actual| && duplicate == actual[i] == actual[i - 1] && NoNeighboursEqual(actual[..i])
    ensures !NoNeighboursEqual(actual) && !(2 <= |actual| && actual[0] == [] && actual[1] == [])
  {
    var i :| 1 <= i < |actual| && duplicate == actual[i] == actual[i - 1] && NoNeighboursEqual(actual[..i]);
    assert 2 <= i ==> actual[..i][1] != actual[..i][0];
  }

  lemma StrictIsSorted(names: seq<Name>)
    requires StrictlySorted(names)
    ensures Sorted(names) && NoNeighboursEqual(names)
  {
    forall i | 1 <= i < |names| ensures !Less(names[i], names[i - 1]) && names[i] != names[i - 1] {
      assert Less(names[i - 1], names[i]);
      LessTotal(names[i - 1], names[i]);
    }
  }

  /** Sorted without equal neighbours is strictly sorted. */
  lemma {:induction false} SortedIsStrict(names: seq<Name>, i: nat, j: nat)
    requires Sorted(names) && NoNeighboursEqual(names) && i < j < |names|
    ensures Less(names[i], names[j])
    decreases j - i
  {
    LessTotal(names[j - 1], names[j]);
    if i < j - 1 {
      SortedIsStrict(names, i, j - 1);
      LessTransitive(names[i], names[j - 1], names[j]);
    }
  }

  /** In a sorted list the empty name, if present, comes first, and if repeated, second. */
  lemma {:induction false} EmptyIsFirst(names: seq<Name>, i: nat)
    requires Sorted(names) && i < |names| && names[i] == []
    ensures names[0] == [] && (1 <= i ==> names[1] == [])
  {
    if i > 0 {
      assert names[i - 1] == [] by { assert !Less(names[i], names[i - 1]); }
      EmptyIsFirst(names, i - 1);
    }
  }

  /** Two strictly sorted lists with the same names are the same list. */
  lemma {:induction false} SameNamesSameList(a: seq<Name>, b: seq<Name>)
    requires StrictlySorted(a) && StrictlySorted(b) && forall name :: name in a <==> name in b
    ensures a == b
  {
    assert b != [] ==> b[0] in b;
    if a != [] {
      assert a[0] in a && a[0] in b;
      assert b[0] in b && b[0] in a;
      FirstIsLeast(a, b[0]);
      FirstIsLeast(b, a[0]);
      LessTotal(a[0], b[0]);
      forall name ensures name in a[1..] <==> name in b[1..] {
        RestExcludesFirst(a, name);
        RestExcludesFirst(b, name);
      }
      SameNamesSameList(a[1..], b[1..]);
      assert a == [a[0]] + a[1..] && b == [b[0]] + b[1..];
    }
  }

  lemma FirstIsLeast(names: seq<Name>, name: Name)
    requires StrictlySorted(names) && name in names
    ensures names[0] == name || Less(names[0], name)
  {
  }

  lemma RestExcludesFirst(names: seq<Name>, name: Name)
    requires StrictlySorted(names) && names != []
    ensures name in names[1..] <==> name in names && name != names[0]
  {
    LessIrreflexive(names[0]);
    assert names == [names[0]] + names[1..];
    forall i | 0 <= i < |names| - 1 ensures names[1..][i] != names[0] { assert Less(names[0], names[i + 1]); }
  }

  /** A list that passed the four named checks and differs from the expected one begins with the empty name. */
  lemma PassedEverything(actual: seq<Name>, expected: seq<Name>, duplicate: Name, unexpected: Name)
    requires StrictlySorted(expected) && [] !in expected && Sorted(actual) && actual != expected
    requires NoNeighboursEqual(actual) || exists i :: 1 <= i < |actual| && actual[i] == actual[i - 1] == []
    requires Within(expected, actual)
    requires Within(actual, expected) || [] in actual
    ensures Slips(actual, expected)
  {
    if [] in actual {
      var i :| 0 <= i < |actual| && actual[i] == [];
      EmptyIsFirst(actual, i);
      if !NoNeighboursEqual(actual) {
        var j :| 1 <= j < |actual| && actual[j] == actual[j - 1] == [];
        EmptyIsFirst(actual, j);
      }
    } else {
      forall i, j | 0 <= i < j < |actual| ensures Less(actual[i], actual[j]) { SortedIsStrict(actual, i, j); }
      SameNamesSameList(actual, expected);
      assert false;
    }
  }

  /** So the last branch, which the earlier checks seem to make unreachable, is reached: here by the expected list
      with an empty name before it. */
  lemma EmptyNameSlips()
    ensures Slips([[]] + ExpectedCapabilities(), ExpectedCapabilities())
  {
    var e := ExpectedCapabilities();
    var names := [[]] + e;
    ExpectedIsStrict();
    StrictIsSorted(e);
    forall i | 1 <= i < |names| ensures !Less(names[i], names[i - 1]) && names[i] != names[i - 1] {
      if i > 1 { assert names[i] == e[i - 1] && names[i - 1] == e[i - 2]; } else { assert e[0] in e; }
    }
  }
}
