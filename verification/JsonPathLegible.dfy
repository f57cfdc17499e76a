/** Which segments mean anything, and what the simple ones mean. */
module JsonPathLegible {
  import opened Wrappers
  import opened JsonPath
  import opened JsonPathMeaning
  import opened JsonPathStrings

  predicate Fits(index: string) { Atoi(index).Some? }

  predicate AllFit(indices: seq<string>) { forall i :: 0 <= i < |indices| ==> Fits(indices[i]) }

  predicate AllIndices(indices: seq<string>) { forall i :: 0 <= i < |indices| ==> IsIndex(indices[i]) }

  /** A run of digits is trimmed, plain, without dots, and never a negative number. */
  lemma {:induction false} DigitsAreSimple(index: string)
    requires IsIndex(index)
    ensures Trimmed(index) && Plain(index) && '.' !in index
    ensures Fits(index) ==> Atoi(index).value >= 0
  {
    DecimalIsNatural(index);
  }

  lemma {:induction false} DecimalIsNatural(s: string)
    requires Digits(s)
    ensures Decimal(s) >= 0
  {
    if s != "" { DecimalIsNatural(s[..|s| - 1]); }
  }

  lemma NotAnInteger(s: string, n: nat)
    requires n < |s| && s[n] == '['
    ensures Atoi(s) == None
  {
    var signed := s[0] == '-' || s[0] == '+';
    if signed && n > 0 { assert s[1..][n - 1] == '['; }
  }

  lemma IntegerIsPlain(s: string)
    requires Fits(s)
    ensures Plain(s)
  {
    forall i | 0 <= i < |s| ensures s[i] != '[' && s[i] != ']' {
      if i > 0 { assert s[1..][i - 1] == s[i]; }
    }
  }

  lemma IntegerMatches(s: string)
    requires Fits(s)
    ensures Match(s).Some?
  {
    IntegerIsPlain(s);
    assert s + Bracketed([]) == s;
    MatchIsExact(s, Access(s, []));
  }

  /** A match with indices has a bracket after its base. */
  lemma MatchParts(s: string, access: Access)
    requires Match(s) == Some(access) && access.indices != []
    ensures |access.base| < |s| && s[..|access.base|] == access.base && s[|access.base|] == '['
    ensures Plain(access.base) && AllIndices(access.indices)
  {
    MatchIsExact(s, access);
  }

  /** What is no integer and has no bracket names a field. */
  lemma FieldMeans(name: string)
    requires Trimmed(name) && name != "" && Plain(name) && Atoi(name) == None
    ensures SegmentHops(name) == Some([Field(name)])
  {
    TrimKeeps(name);
    assert name + Bracketed([]) == name;
    MatchIsExact(name, Access(name, []));
    assert [Field(name)] + [] == [Field(name)];
  }

  lemma IntegerMeans(name: string)
    requires Trimmed(name) && name != "" && Fits(name)
    ensures SegmentHops(name) == if Atoi(name).value >= 0 then Some([Element(Atoi(name).value)]) else None
  {
    TrimKeeps(name);
    assert [name][1..] == [];
    assert IndexHops([]) == Some([]);
    if IndexHop(name).Some? { assert [IndexHop(name).value] + [] == [IndexHop(name).value]; }
  }

  /** A run of digits means something on its own, even where it does not fit as an index. */
  lemma DigitsMean(index: string)
    requires IsIndex(index)
    ensures SegmentHops(index).Some? && |SegmentHops(index).value| == 1
    ensures Fits(index) ==> IndexHop(index).Some? && SegmentHops(index) == Some([IndexHop(index).value])
    ensures !Fits(index) ==> IndexHop(index) == None
  {
    DigitsAreSimple(index);
    if Fits(index) { IntegerMeans(index); } else { FieldMeans(index); }
  }

  /** Dotted indices mean what bracketed ones do, if they fit; if not, the brackets never read anything. */
  lemma {:induction false} IndicesMeanDotted(indices: seq<string>)
    requires AllIndices(indices)
    ensures Hops(indices).Some? && |Hops(indices).value| == |indices|
    ensures AllFit(indices) ==> IndexHops(indices) == Hops(indices)
    ensures !AllFit(indices) ==> IndexHops(indices) == None
    decreases |indices|
  {
    if indices != [] {
      DigitsMean(indices[0]);
      IndicesMeanDotted(indices[1..]);
      assert AllFit(indices) <==> Fits(indices[0]) && AllFit(indices[1..]);
    }
  }

  lemma {:induction false} IndexHopsAreElements(indices: seq<string>)
    requires IndexHops(indices).Some?
    ensures |IndexHops(indices).value| == |indices| && forall h :: h in IndexHops(indices).value ==> h.Element?
  {
    if indices != [] { IndexHopsAreElements(indices[1..]); }
  }

  /** A segment that reads something from some value: blank, an element that may exist, or a base or indices of which
      all fit. */
  predicate Legible(segment: string) {
    var trimmed := Trim(segment);
    if trimmed == "" then true
    else if Fits(trimmed) then Atoi(trimmed).value >= 0
    else
      match Match(trimmed)
      case None => false
      case Some(access) => AllFit(access.indices) && (Trim(access.base) != "" || access.indices != [])
  }

  predicate AllLegible(segments: seq<string>) { forall i :: 0 <= i < |segments| ==> Legible(segments[i]) }

  /** The path extracts the empty text from every body. */
  predicate NeverReads(path: string) {
    Normalize(path) == "" || !AllLegible(Split(Normalize(path)))
  }

  lemma LegibleMeans(segment: string)
    ensures Legible(segment) <==> SegmentHops(segment).Some?
  {
    var trimmed := Trim(segment);
    if Fits(trimmed) {
      assert [trimmed][1..] == [];
      assert IndexHops([]) == Some([]);
    } else if Match(trimmed).Some? {
      var access := Match(trimmed).value;
      MatchIsExact(trimmed, access);
      IndicesMeanDotted(access.indices);
    }
  }

  lemma AllLegibleSplits(segments: seq<string>)
    requires segments != []
    ensures AllLegible(segments) <==> Legible(segments[0]) && AllLegible(segments[1..])
  {
    assert segments == [segments[0]] + segments[1..];
  }

  lemma HopsSplit(segments: seq<string>)
    requires segments != []
    ensures Hops(segments).Some? <==> SegmentHops(segments[0]).Some? && Hops(segments[1..]).Some?
  {
  }

  lemma {:induction false} AllLegibleMeans(segments: seq<string>)
    ensures Hops(segments).Some? <==> AllLegible(segments)
  {
    if segments != [] {
      LegibleMeans(segments[0]);
      AllLegibleMeans(segments[1..]);
      AllLegibleSplits(segments);
      HopsSplit(segments);
    }
  }

  lemma NeverReadsMeans(path: string)
    ensures NeverReads(path) <==> PathHops(path) == None
  {
    AllLegibleMeans(Split(Normalize(path)));
  }
}
