/** Trimming, splitting and joining, as JSON paths need them. */
module JsonPathStrings {
  import opened Runes
  import opened JsonPath

  predicate Trimmed(s: string) { s == "" || (!IsSpace(s[0] as int) && !IsSpace(s[|s| - 1] as int)) }

  lemma {:induction false} TrimRightShape(s: string)
    ensures |TrimRight(s)| <= |s| && TrimRight(s) == s[..|TrimRight(s)|]
    ensures TrimRight(s) == "" || !IsSpace(TrimRight(s)[|TrimRight(s)| - 1] as int)
  {
    if s != "" && IsSpace(s[|s| - 1] as int) { TrimRightShape(s[..|s| - 1]); }
  }

  lemma {:induction false} TrimLeftShape(s: string)
    ensures |TrimLeft(s)| <= |s| && TrimLeft(s) == s[|s| - |TrimLeft(s)|..]
    ensures TrimLeft(s) == "" || !IsSpace(TrimLeft(s)[0] as int)
  {
    if s != "" && IsSpace(s[0] as int) { TrimLeftShape(s[1..]); }
  }

  /** Trimming takes a stretch of the string, trimmed at both ends. */
  lemma TrimShape(s: string) returns (from: nat, to: nat)
    ensures from <= to <= |s| && Trim(s) == s[from..to] && Trimmed(Trim(s))
  {
    var left := TrimLeft(s);
    TrimLeftShape(s);
    TrimRightShape(left);
    from := |s| - |left|;
    to := from + |Trim(s)|;
  }

  lemma TrimKeeps(s: string)
    requires Trimmed(s)
    ensures Trim(s) == s
  {
  }

  lemma TrimIdempotent(s: string)
    ensures Trim(Trim(s)) == Trim(s)
  {
    var from, to := TrimShape(s);
    TrimKeeps(Trim(s));
  }

  lemma TrimSubset(s: string)
    ensures forall c :: c in Trim(s) ==> c in s
  {
    var from, to := TrimShape(s);
  }

  lemma {:induction false} FirstStays(s: string)
    requires s != "" && !IsSpace(s[0] as int)
    ensures TrimRight(s) != ""
  {
    if IsSpace(s[|s| - 1] as int) {
      assert |s| > 1;
      FirstStays(s[..|s| - 1]);
    }
  }

  lemma FirstSurvives(s: string)
    requires s != "" && !IsSpace(s[0] as int)
    ensures Trim(s) != ""
  {
    TrimRightShape(s);
    FirstStays(s);
  }

  lemma {:induction false} LastStays(s: string)
    requires s != "" && !IsSpace(s[|s| - 1] as int)
    ensures TrimLeft(s) != ""
  {
    if IsSpace(s[0] as int) {
      assert |s| > 1;
      LastStays(s[1..]);
    }
  }

  lemma EndsWellIsNotBlank(s: string)
    requires s != "" && !IsSpace(s[|s| - 1] as int)
    ensures Trim(s) != ""
  {
    LastStays(s);
    var left := TrimLeft(s);
    TrimLeftShape(s);
    assert left[|left| - 1] == s[|s| - 1];
  }

  lemma {:induction false} LeadingSpaces(s: string, i: nat)
    requires i < |s| - |TrimLeft(s)|
    ensures IsSpace(s[i] as int)
  {
    if i > 0 { LeadingSpaces(s[1..], i - 1); }
  }

  lemma {:induction false} TrimLeftAppend(a: string, b: string)
    requires b == "" || !IsSpace(b[0] as int)
    ensures TrimLeft(a + b) == TrimLeft(a) + b
  {
    if a == "" {
      assert a + b == b;
    } else {
      assert (a + b)[1..] == a[1..] + b;
      TrimLeftAppend(a[1..], b);
    }
  }

  lemma {:induction false} TrimRightPrepend(c: char, s: string)
    requires !IsSpace(c as int)
    ensures TrimRight([c] + s) == [c] + TrimRight(s)
  {
    if s != "" && IsSpace(s[|s| - 1] as int) {
      assert ([c] + s)[..|s|] == [c] + s[..|s| - 1];
      TrimRightPrepend(c, s[..|s| - 1]);
    }
  }

  lemma {:induction false} TrimRightSuffix(s: string, from: nat)
    requires from <= |s|
    ensures |TrimRight(s[from..])| <= |TrimRight(s)|
  {
    var t := s[from..];
    if t != "" && IsSpace(s[|s| - 1] as int) {
      assert t[..|t| - 1] == s[..|s| - 1][from..];
      TrimRightSuffix(s[..|s| - 1], from);
    }
  }

  predicate DotFree(segments: seq<string>) { forall i :: 0 <= i < |segments| ==> '.' !in segments[i] }

  lemma {:induction false} SplitPlain(s: string)
    requires '.' !in s
    ensures Split(s) == [s]
  {
    if s != "" {
      SplitPlain(s[1..]);
      assert [s[0]] + s[1..] == s;
    }
  }

  lemma {:induction false} SplitFirst(first: string, rest: string)
    requires '.' !in first
    ensures Split(first + "." + rest) == [first] + Split(rest)
  {
    var s := first + "." + rest;
    if first == "" {
      assert s[1..] == rest;
    } else {
      assert s[1..] == first[1..] + "." + rest;
      SplitFirst(first[1..], rest);
      assert [first[0]] + first[1..] == first;
      assert ([first[1..]] + Split(rest))[1..] == Split(rest);
    }
  }

  lemma {:induction false} SplitSingle(s: string)
    ensures |Split(s)| == 1 ==> Split(s) == [s]
  {
    if s != "" {
      SplitSingle(s[1..]);
      if |Split(s)| == 1 { assert [s[0]] + s[1..] == s; }
    }
  }

  /** Splitting undoes joining. */
  lemma {:induction false} SplitJoin(segments: seq<string>)
    requires segments != [] && DotFree(segments)
    ensures Split(Join(segments)) == segments
  {
    if |segments| == 1 {
      SplitPlain(segments[0]);
    } else {
      SplitFirst(segments[0], Join(segments[1..]));
      SplitJoin(segments[1..]);
    }
  }

  predicate AllTrimmed(segments: seq<string>) { forall i :: 0 <= i < |segments| ==> Trimmed(segments[i]) }

  /** Joined trimmed segments do not end with a space. */
  lemma {:induction false} JoinEndsWell(segments: seq<string>)
    requires AllTrimmed(segments)
    ensures var s := Join(segments); s == "" || !IsSpace(s[|s| - 1] as int)
  {
    if |segments| > 1 { JoinEndsWell(segments[1..]); }
  }

  /** Joined segments are empty only when there is one, and it is empty. */
  lemma JoinIsEmpty(segments: seq<string>)
    requires segments != []
    ensures Join(segments) == "" <==> segments == [""]
  {
    if |segments| == 1 { assert segments == [segments[0]]; } else { assert Join(segments)[|segments[0]|] == '.'; }
  }

  lemma JoinIsTrimmed(segments: seq<string>)
    requires AllTrimmed(segments)
    ensures Trimmed(Join(segments)) && Trim(Join(segments)) == Join(segments)
  {
    JoinEndsWell(segments);
    TrimKeeps(Join(segments));
  }

  /** What is left of a path to be split does not end with a space. */
  lemma NormalizeEndsWell(path: string)
    ensures var s := Normalize(path); s == "" || !IsSpace(s[|s| - 1] as int)
  {
    var from, to := TrimShape(path);
  }
}
