/** The anchor `$.` of a path, and what a dollar sign in front does to a path written without it. */
module JsonPathDollar {
  import opened Wrappers
  import opened Runes
  import opened JsonPath
  import opened JsonPathMeaning
  import opened JsonPathStrings
  import opened JsonPathLegible

  /** A path with the anchor `$.` written before it is read from after the anchor. */
  lemma NormalizeAnchored(segments: seq<string>)
    requires AllTrimmed(segments)
    ensures Normalize("$." + Join(segments)) == Join(segments)
  {
    var s := "$." + Join(segments);
    JoinEndsWell(segments);
    TrimKeeps(s);
  }

  /** The meaning of segments written with dots, after the anchor `$.`. */
  lemma AnchoredMeans(segments: seq<string>)
    requires AllTrimmed(segments) && DotFree(segments)
    ensures PathHops("$." + Join(segments)) == if segments == [] || segments == [""] then None else Hops(segments)
  {
    NormalizeAnchored(segments);
    if segments != [] {
      JoinIsEmpty(segments);
      SplitJoin(segments);
    }
  }

  /** The first segment begins with a dollar sign. */
  predicate Dollar(segments: seq<string>) { segments != [] && segments[0] != "" && segments[0][0] == '$' }

  lemma BareNormalizes(segments: seq<string>)
    requires AllTrimmed(segments) && DotFree(segments) && !Dollar(segments)
    ensures Normalize(Join(segments)) == Join(segments)
  {
    JoinIsTrimmed(segments);
    if segments != [] && segments[0] != "" { assert Join(segments)[0] == segments[0][0]; }
  }

  /** Without a dollar sign in front the anchor makes no difference. */
  lemma AnchorIsOptional(printer: Json -> string, body: Json, segments: seq<string>)
    requires AllTrimmed(segments) && DotFree(segments) && !Dollar(segments)
    ensures Extract(printer, body, Join(segments)) == Extract(printer, body, "$." + Join(segments))
  {
    BareNormalizes(segments);
    NormalizeAnchored(segments);
  }

  /** With a dollar sign in front, what comes after the first one is read. */
  function Undollared(segments: seq<string>): seq<string>
    requires Dollar(segments)
  {
    if segments[0] == "$" then segments[1..] else [segments[0][1..]] + segments[1..]
  }

  lemma UndollaredDotFree(segments: seq<string>)
    requires DotFree(segments) && Dollar(segments) && segments[0] != "$"
    ensures DotFree(Undollared(segments))
  {
    forall i | 0 <= i < |Undollared(segments)| ensures '.' !in Undollared(segments)[i] {
      if i > 0 { assert Undollared(segments)[i] == segments[i]; }
    }
  }

  lemma LoneDollarNormalizes(segments: seq<string>)
    requires segments != [] && segments[0] == "$" && Trim(Join(segments)) == Join(segments)
    ensures Normalize(Join(segments)) == Join(segments[1..])
  {
    var s := Join(segments);
    if |segments| == 1 {
      assert s == "$" && s[1..] == "" && segments[1..] == [];
    } else {
      assert s == "$" + "." + Join(segments[1..]);
      assert s[..2] == "$." && s[2..] == Join(segments[1..]);
    }
  }

  lemma LongDollarNormalizes(segments: seq<string>)
    requires DotFree(segments) && Dollar(segments) && segments[0] != "$" && Trim(Join(segments)) == Join(segments)
    ensures Normalize(Join(segments)) == Join([segments[0][1..]] + segments[1..])
  {
    var s, first := Join(segments), segments[0];
    var rest := [first[1..]] + segments[1..];
    assert |first| > 1;
    assert first[1] in first;
    assert rest[1..] == segments[1..];
    if |segments| == 1 {
      assert s == first && Join(rest) == first[1..];
    } else {
      assert s == first + "." + Join(segments[1..]);
      assert s[1..] == first[1..] + "." + Join(segments[1..]);
    }
    assert s[0] == '$' && s[1] != '.';
    assert s[..1] == "$";
  }

  lemma BareDollarNormalizes(segments: seq<string>)
    requires AllTrimmed(segments) && DotFree(segments) && Dollar(segments)
    ensures Normalize(Join(segments)) == Join(Undollared(segments))
  {
    JoinIsTrimmed(segments);
    if segments[0] == "$" { LoneDollarNormalizes(segments); } else { LongDollarNormalizes(segments); }
  }

  lemma TrimPrepend(c: char, s: string)
    requires !IsSpace(c as int)
    ensures Trim([c] + s) == [c] + TrimRight(s)
  {
    TrimRightPrepend(c, s);
  }

  lemma TrimIsNoLonger(s: string)
    ensures |Trim(s)| <= |TrimRight(s)|
  {
    TrimLeftShape(s);
    TrimRightSuffix(s, |s| - |TrimLeft(s)|);
  }

  lemma TrimLeftTwice(s: string)
    ensures TrimLeft(TrimLeft(s)) == TrimLeft(s)
  {
    TrimLeftShape(s);
  }

  /** A name loses its dollar sign. */
  lemma UndollaredName(rest: string)
    ensures Trim("$" + rest) != "" && Trim("$" + rest) != Trim(TrimLeft(rest))
  {
    TrimPrepend('$', rest);
    TrimIsNoLonger(rest);
    TrimLeftTwice(rest);
    assert |Trim("$" + rest)| == 1 + |TrimRight(rest)|;
  }

  lemma BaseFirst(segment: string, base: string, indices: seq<string>)
    requires segment == base + Bracketed(indices) && segment != "" && segment[0] == '$'
    ensures base != "" && base[0] == '$' && segment[1..] == base[1..] + Bracketed(indices)
    ensures Bracketed(indices) == "" || Bracketed(indices)[0] == '['
  {
  }

  lemma TrimAfterFirst(segment: string, front: string, back: string)
    requires Trimmed(segment) && |segment| > 1 && segment[1..] == front + back
    requires back == "" || back[0] == '['
    ensures Trim(segment[1..]) == TrimLeft(front) + back && Trim(segment[1..]) != ""
  {
    var rest := segment[1..];
    TrimLeftAppend(front, back);
    EndsWellIsNotBlank(rest);
    LastStays(rest);
    TrimLeftShape(rest);
    assert TrimLeft(rest)[|TrimLeft(rest)| - 1] == rest[|rest| - 1];
  }

  lemma TrimLeftPlain(s: string)
    ensures Plain(s) ==> Plain(TrimLeft(s))
  {
    TrimLeftShape(s);
  }

  /** The access that is left of a segment after its dollar sign. */
  lemma UndollaredMatch(segment: string, access: Access)
    requires Trimmed(segment) && |segment| > 1 && segment[0] == '$' && Match(segment) == Some(access)
    ensures access.base != "" && access.base[0] == '$' && Trim(segment[1..]) != ""
    ensures Match(Trim(segment[1..])) == Some(Access(TrimLeft(access.base[1..]), access.indices))
  {
    var base, indices := access.base, access.indices;
    MatchIsExact(segment, access);
    BaseFirst(segment, base, indices);
    TrimAfterFirst(segment, base[1..], Bracketed(indices));
    TrimLeftPlain(base[1..]);
    MatchIsExact(Trim(segment[1..]), Access(TrimLeft(base[1..]), indices));
  }

  /** The first hop of an access with a dollar sign in front, and of what is left of it, differ. */
  lemma UndollaredAccess(rest: string, indices: seq<string>)
    requires AccessHops(Access("$" + rest, indices)).Some?
    ensures var hops := AccessHops(Access("$" + rest, indices)).value;
            && hops != [] && hops[0].Field?
            && var left := AccessHops(Access(TrimLeft(rest), indices));
               left.Some? ==> left.value != [] && left.value[0] != hops[0]
  {
    UndollaredName(rest);
    assert IndexHops(indices).Some?;
    IndexHopsAreElements(indices);
  }

  lemma MatchedMeans(segment: string, trimmed: string, access: Access)
    requires Trim(segment) == trimmed && trimmed != "" && Match(trimmed) == Some(access)
    ensures SegmentHops(segment) == if Fits(trimmed) then IndexHops([trimmed]) else AccessHops(access)
  {
  }

  /** The accesses of a segment with a dollar sign in front, and of what is left of it. */
  lemma DollarAccesses(segment: string) returns (rest: string, indices: seq<string>)
    requires Trimmed(segment) && |segment| > 1 && segment[0] == '$' && Match(segment).Some?
    ensures SegmentHops(segment) == AccessHops(Access("$" + rest, indices))
    ensures var left := Trim(segment[1..]);
            SegmentHops(segment[1..]) ==
              if Fits(left) then IndexHops([left]) else AccessHops(Access(TrimLeft(rest), indices))
  {
    var access := Match(segment).value;
    rest, indices := access.base[1..], access.indices;
    TrimKeeps(segment);
    assert Atoi(segment) == None;
    UndollaredMatch(segment, access);
    MatchedMeans(segment, segment, access);
    MatchedMeans(segment[1..], Trim(segment[1..]), Access(TrimLeft(rest), indices));
    assert access.base == "$" + rest;
  }

  /** What is left of a segment after its dollar sign means something else, or nothing. */
  lemma UndollaredMeans(segment: string)
    requires Trimmed(segment) && |segment| > 1 && segment[0] == '$' && SegmentHops(segment).Some?
    ensures SegmentHops(segment).value != [] && SegmentHops(segment).value[0].Field?
    ensures var left := SegmentHops(segment[1..]);
            left.Some? ==> left.value != [] && left.value[0] != SegmentHops(segment).value[0]
  {
    DollarMatches(segment);
    var rest, indices := DollarAccesses(segment);
    var left := Trim(segment[1..]);
    UndollaredAccess(rest, indices);
    if Fits(left) && IndexHops([left]).Some? { IndexHopsAreElements([left]); }
  }

  lemma DollarMatches(segment: string)
    requires Trimmed(segment) && |segment| > 1 && segment[0] == '$' && SegmentHops(segment).Some?
    ensures Match(segment).Some?
  {
    TrimKeeps(segment);
    assert Atoi(segment) == None;
  }

  lemma DollarAlone()
    ensures SegmentHops("$") == Some([Field("$")])
  {
    FieldMeans("$");
  }

  lemma DollarMeans(segment: string)
    requires Trimmed(segment) && segment != "" && segment[0] == '$' && SegmentHops(segment).Some?
    ensures SegmentHops(segment).value != []
  {
    if segment == "$" { DollarAlone(); } else { UndollaredMeans(segment); }
  }

  /** A path that begins with a dollar sign after its anchor loses it when the anchor is left out, and with it its
      meaning: `hops` is what it meant. */
  lemma DollarIsLost(segments: seq<string>, hops: seq<Hop>)
    requires AllTrimmed(segments) && DotFree(segments) && Dollar(segments)
    requires SegmentHops(segments[0]).Some? && SegmentHops(segments[0]).value != []
    requires hops != [] && hops[0] == SegmentHops(segments[0]).value[0]
    requires Hops(segments).Some? ==> |Hops(segments).value| == |hops|
    ensures PathHops(Join(segments)) != Some(hops)
  {
    var rest := Undollared(segments);
    BareDollarNormalizes(segments);
    if Join(rest) != "" {
      assert rest != [];
      assert DotFree(rest) by { if segments[0] != "$" { UndollaredDotFree(segments); } }
      SplitJoin(rest);
      if segments[0] == "$" {
        DollarAlone();
      } else {
        UndollaredMeans(segments[0]);
        assert rest[1..] == segments[1..];
      }
    }
  }

  lemma LeadingIsPlain(s: string)
    ensures |TrimLeft(s)| <= |s| && Plain(s[..|s| - |TrimLeft(s)|])
  {
    TrimLeftShape(s);
    forall i | 0 <= i < |s| - |TrimLeft(s)| ensures s[i] != '[' && s[i] != ']' { LeadingSpaces(s, i); }
  }

  /** The reading that the match finds. */
  predicate Reads(segment: string, access: Access) {
    Plain(access.base) && AllIndices(access.indices) && segment == access.base + Bracketed(access.indices)
  }

  lemma FrontReads(front: string, rest: string, access: Access)
    requires Plain(front) && Reads(rest, access)
    ensures Reads(front + rest, access.(base := front + access.base))
  {
    assert front + (access.base + Bracketed(access.indices)) == front + access.base + Bracketed(access.indices);
  }

  lemma LeadingReads(front: string, rest: string, access: Access) returns (access': Access)
    requires Plain(front) && Reads(TrimLeft(rest), access)
    ensures Reads(front + rest, access')
  {
    LeadingIsPlain(rest);
    TrimLeftShape(rest);
    var leading := rest[..|rest| - |TrimLeft(rest)|];
    FrontReads(front + leading, TrimLeft(rest), access);
    assert front + leading + TrimLeft(rest) == front + rest;
    access' := access.(base := front + leading + access.base);
  }

  /** If what is left matches, so did the segment with its dollar sign. */
  lemma DollarStillMatches(rest: string, access: Access)
    requires Match(TrimLeft(rest)) == Some(access)
    ensures Match("$" + rest).Some?
  {
    MatchIsExact(TrimLeft(rest), access);
    var access' := LeadingReads("$", rest, access);
    MatchIsExact("$" + rest, access');
  }

  /** The indices do not fit either way. */
  lemma UndollaredUnfit(segment: string, access: Access)
    requires Trimmed(segment) && |segment| > 1 && segment[0] == '$' && SegmentHops(segment) == None
    requires Trim(segment) == segment && Atoi(segment) == None && Match(segment) == Some(access)
    ensures SegmentHops(segment[1..]) == None
  {
    var left := Trim(segment[1..]);
    UndollaredMatch(segment, access);
    UndollaredName(access.base[1..]);
    assert access.base == "$" + access.base[1..];
    assert IndexHops(access.indices) == None;
    MatchParts(left, Match(left).value);
    NotAnInteger(left, |Match(left).value.base|);
  }

  lemma UnmatchedMeans(rest: string)
    requires Match("$" + rest) == None && rest != "" && !IsSpace(rest[|rest| - 1] as int)
    ensures SegmentHops(rest) == None
  {
    TrimAfterFirst("$" + rest, rest, "");
    assert ("$" + rest)[1..] == rest;
    if Match(TrimLeft(rest)).Some? { DollarStillMatches(rest, Match(TrimLeft(rest)).value); }
    if Fits(TrimLeft(rest)) { IntegerMatches(TrimLeft(rest)); }
    assert Trim(rest) == TrimLeft(rest);
  }

  lemma UndollaredIllegible(segment: string)
    requires Trimmed(segment) && |segment| > 1 && segment[0] == '$' && SegmentHops(segment) == None
    ensures SegmentHops(segment[1..]) == None
  {
    TrimKeeps(segment);
    assert Atoi(segment) == None;
    if Match(segment).Some? {
      UndollaredUnfit(segment, Match(segment).value);
    } else {
      assert "$" + segment[1..] == segment;
      UnmatchedMeans(segment[1..]);
    }
  }

  lemma UndollaredHops(segments: seq<string>)
    requires AllTrimmed(segments) && DotFree(segments) && Dollar(segments) && Hops(segments) == None
    ensures Hops(Undollared(segments)) == None
  {
    if segments[0] == "$" {
      DollarAlone();
    } else {
      assert Undollared(segments)[1..] == segments[1..];
      if SegmentHops(segments[0]) == None { UndollaredIllegible(segments[0]); }
    }
  }

  /** Losing a dollar sign does not make segments readable. */
  lemma UndollaredNeverReads(segments: seq<string>)
    requires AllTrimmed(segments) && DotFree(segments) && Dollar(segments) && Hops(segments) == None
    ensures PathHops(Join(segments)) == None
  {
    var rest := Undollared(segments);
    BareDollarNormalizes(segments);
    UndollaredHops(segments);
    if Join(rest) != "" {
      assert rest != [];
      assert DotFree(rest) by { if segments[0] != "$" { UndollaredDotFree(segments); } }
      SplitJoin(rest);
    }
  }

  lemma FirstHop(segments: seq<string>)
    requires AllTrimmed(segments) && Dollar(segments) && Hops(segments).Some?
    ensures SegmentHops(segments[0]).Some? && SegmentHops(segments[0]).value != []
    ensures Hops(segments).value != [] && Hops(segments).value[0] == SegmentHops(segments[0]).value[0]
  {
    DollarMeans(segments[0]);
  }
}
