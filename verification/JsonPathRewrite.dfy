/** Rewriting a JSON path: bracketed indices as dotted ones, and blank segments dropped. For each rewriting, with and
    without the anchor `$.` before it, exactly when it leaves the extracted text unchanged for every body. */
module JsonPathRewrite {
  import opened Wrappers
  import opened Runes
  import opened JsonPath
  import opened JsonPathMeaning
  import opened JsonPathStrings
  import opened JsonPathLegible
  import opened JsonPathDollar

  // ------------------------------------------------------------------------------------------ one segment dotted

  /** The dotted form of one segment. */
  function Expand(segment: string): seq<string> {
    var trimmed := Trim(segment);
    match Match(trimmed)
    case None => [trimmed]
    case Some(access) =>
      if access.indices == [] then [trimmed]
      else if Trim(access.base) == "" then access.indices
      else [Trim(access.base)] + access.indices
  }

  /** Whether a segment may be written dotted: its base must not read as an integer and its indices must fit. Where
      neither form ever reads anything, it does not matter. */
  predicate Rewritable(segment: string) {
    match Match(Trim(segment))
    case None => true
    case Some(access) =>
      var integer := Atoi(Trim(access.base));
      access.indices == [] || (AllFit(access.indices) && integer == None)
      || (!AllFit(access.indices) && integer.Some? && integer.value < 0)
  }

  predicate Simple(segment: string) { Trimmed(segment) && segment != "" && Plain(segment) && '.' !in segment }

  lemma TrimPlain(s: string)
    requires Plain(s) && '.' !in s
    ensures Trim(s) == "" || Simple(Trim(s))
  {
    TrimSubset(s);
    var from, to := TrimShape(s);
  }

  lemma BaseSurvives(trimmed: string, base: string)
    requires Trimmed(trimmed) && base != "" && base <= trimmed
    ensures Trim(base) != ""
  {
    FirstSurvives(base);
  }

  /** The parts of a bracketed segment. */
  lemma BracketedParts(segment: string, access: Access)
    requires '.' !in segment && Match(Trim(segment)) == Some(access) && access.indices != []
    ensures Trim(segment) != "" && Atoi(Trim(segment)) == None
    ensures AllIndices(access.indices)
    ensures Trim(access.base) == "" || Simple(Trim(access.base))
    ensures access.base == "" || Trim(access.base) != ""
  {
    var trimmed := Trim(segment);
    var from, to := TrimShape(segment);
    TrimSubset(segment);
    MatchParts(trimmed, access);
    assert forall c :: c in access.base ==> c in trimmed;
    TrimPlain(access.base);
    NotAnInteger(trimmed, |access.base|);
    if access.base != "" { BaseSurvives(trimmed, access.base); }
  }

  /** What a bracketed segment means. */
  lemma BracketedMeans(segment: string, access: Access)
    requires '.' !in segment && Match(Trim(segment)) == Some(access) && access.indices != []
    ensures SegmentHops(segment) ==
              if Trim(access.base) == "" then IndexHops(access.indices)
              else Both(Some([Field(Trim(access.base))]), IndexHops(access.indices))
  {
    BracketedParts(segment, access);
  }

  /** Before the same hops, one hop makes the same meaning only if it is the same. */
  lemma OneHopBefore(first: Option<seq<Hop>>, hop: Hop, rest: Option<seq<Hop>>)
    requires rest.Some? && (first.Some? ==> |first.value| == 1)
    ensures Both(first, rest) == Both(Some([hop]), rest) <==> first == Some([hop])
  {
    if first.Some? {
      assert first.value == [first.value[0]];
      assert (first.value + rest.value)[0] == first.value[0];
      assert ([hop] + rest.value)[0] == hop;
    }
  }

  lemma ExpandBracketedMeans(segment: string, access: Access)
    requires '.' !in segment && Match(Trim(segment)) == Some(access) && access.indices != []
    ensures Hops(Expand(segment)) == SegmentHops(segment) <==> Rewritable(segment)
    ensures Hops(Expand(segment)).Some? && SegmentHops(segment).Some? ==>
              |Hops(Expand(segment)).value| == |SegmentHops(segment).value|
  {
    var base, indices := Trim(access.base), access.indices;
    BracketedParts(segment, access);
    BracketedMeans(segment, access);
    IndicesMeanDotted(indices);
    if base != "" {
      HopsAppend([base], indices);
      HopsOfOne(base);
      if Fits(base) { IntegerMeans(base); } else { FieldMeans(base); }
      OneHopBefore(SegmentHops(base), Field(base), Hops(indices));
    }
  }

  /** The dotted form of a segment means the same exactly when the segment is rewritable. When both forms mean
      something, they take equally many hops. */
  lemma ExpandMeans(segment: string)
    requires '.' !in segment
    ensures Hops(Expand(segment)) == SegmentHops(segment) <==> Rewritable(segment)
    ensures Hops(Expand(segment)).Some? && SegmentHops(segment).Some? ==>
              |Hops(Expand(segment)).value| == |SegmentHops(segment).value|
  {
    TrimIdempotent(segment);
    HopsOfOne(Trim(segment));
    match Match(Trim(segment))
    case None =>
    case Some(access) => if access.indices != [] { ExpandBracketedMeans(segment, access); }
  }

  /** Writing one segment dotted changes nothing, whatever the value, exactly when the segment is rewritable. */
  lemma DottedSegmentIsExact(segment: string)
    requires '.' !in segment
    ensures (forall v :: Walk(v, Expand(segment)) == Step(v, segment)) <==> Rewritable(segment)
  {
    ExpandMeans(segment);
    forall v
      ensures Walk(v, Expand(segment)) == FollowAll(v, Hops(Expand(segment)))
      ensures Step(v, segment) == FollowAll(v, SegmentHops(segment))
    {
      WalkMeans(v, Expand(segment));
      SegmentMeans(v, segment);
    }
    if !Rewritable(segment) {
      var v := Distinguish(_ => "", Hops(Expand(segment)), SegmentHops(segment));
      assert Walk(v, Expand(segment)) != Step(v, segment);
    }
  }

  lemma DigitIsInteger(digit: char)
    requires '0' <= digit <= '9'
    ensures Atoi([digit]) == Some(digit as int - '0' as int)
  {
    assert [digit][..0] == "";
    assert Decimal([digit]) == 10 * Decimal("") + (digit as int - '0' as int);
  }

  lemma DigitThenIndex(base: char, index: char)
    requires '0' <= base <= '9' && '0' <= index <= '9'
    ensures Match([base, '[', index, ']']) == Some(Access([base], [[index]]))
  {
    assert Bracketed([]) == "" && [[index]][1..] == [];
    assert Bracketed([[index]]) == "[" + [index] + "]" + "";
    assert [base, '[', index, ']'] == [base] + Bracketed([[index]]);
    MatchIsExact([base, '[', index, ']'], Access([base], [[index]]));
  }

  /** A base that is an integer turns into an index when it is written dotted: such a path is not rewritable. */
  lemma IntegerBaseIsNotRewritable(base: char, index: char)
    requires '0' <= base <= '9' && '0' <= index <= '9'
    ensures !Rewritable([base, '[', index, ']'])
  {
    TrimKeeps([base, '[', index, ']']);
    TrimKeeps([base]);
    DigitThenIndex(base, index);
    DigitIsInteger(base);
    DigitIsInteger(index);
  }

  // ------------------------------------------------------------------------------------------ all segments dotted

  lemma ExpandNonEmpty(segment: string)
    ensures Expand(segment) != []
  {
  }

  function ExpandAll(segments: seq<string>): (dotted: seq<string>)
    ensures |dotted| >= |segments|
  {
    if segments == [] then []
    else
      ExpandNonEmpty(segments[0]);
      Expand(segments[0]) + ExpandAll(segments[1..])
  }

  predicate AllRewritable(segments: seq<string>) { forall i :: 0 <= i < |segments| ==> Rewritable(segments[i]) }

  /** Equal wholes of equally long parts have equal parts. */
  lemma SplitBoth(a: Option<seq<Hop>>, b: Option<seq<Hop>>, c: Option<seq<Hop>>, d: Option<seq<Hop>>)
    requires a.Some? && c.Some? ==> |a.value| == |c.value|
    ensures Both(a, b) == Both(c, d) && Both(c, d).Some? ==> a == c && b == d
  {
    if Both(a, b) == Both(c, d) && Both(c, d).Some? {
      var n, whole := |a.value|, a.value + b.value;
      assert whole[..n] == a.value && whole[n..] == b.value;
      assert (c.value + d.value)[..n] == c.value && (c.value + d.value)[n..] == d.value;
    }
  }

  lemma AllRewritableSplits(segments: seq<string>)
    requires segments != []
    ensures AllRewritable(segments) <==> Rewritable(segments[0]) && AllRewritable(segments[1..])
  {
    assert segments == [segments[0]] + segments[1..];
  }

  /** Segments that mean something mean the same in dotted form exactly when all of them are rewritable. */
  lemma {:induction false} ExpandAllMeans(segments: seq<string>)
    requires DotFree(segments)
    ensures AllRewritable(segments) ==> Hops(ExpandAll(segments)) == Hops(segments)
    ensures Hops(segments).Some? && Hops(ExpandAll(segments)).Some? ==>
              |Hops(ExpandAll(segments)).value| == |Hops(segments).value|
    ensures Hops(segments).Some? && Hops(ExpandAll(segments)) == Hops(segments) ==> AllRewritable(segments)
    decreases |segments|
  {
    if segments != [] {
      var first, rest := Expand(segments[0]), ExpandAll(segments[1..]);
      ExpandMeans(segments[0]);
      ExpandAllMeans(segments[1..]);
      HopsAppend(first, rest);
      AllRewritableSplits(segments);
      SplitBoth(Hops(first), Hops(rest), SegmentHops(segments[0]), Hops(segments[1..]));
    }
  }

  lemma TrimIsClean(segment: string)
    requires '.' !in segment
    ensures DotFree([Trim(segment)]) && AllTrimmed([Trim(segment)])
  {
    var from, to := TrimShape(segment);
    TrimSubset(segment);
  }

  lemma SimpleIsClean(segments: seq<string>)
    requires segments != [] && forall i :: 0 <= i < |segments| ==> Simple(segments[i])
    ensures DotFree(segments) && AllTrimmed(segments) && segments[0] != ""
  {
    assert Simple(segments[0]);
  }

  lemma BracketedIsClean(segment: string, access: Access)
    requires '.' !in segment && Match(Trim(segment)) == Some(access) && access.indices != []
    ensures DotFree(Expand(segment)) && AllTrimmed(Expand(segment)) && Expand(segment)[0] != ""
  {
    BracketedParts(segment, access);
    var first := Trim(access.base);
    forall i | 0 <= i < |access.indices| ensures Simple(access.indices[i]) { DigitsAreSimple(access.indices[i]); }
    if first == "" { SimpleIsClean(access.indices); } else { SimpleIsClean([first] + access.indices); }
  }

  lemma ExpandIsClean(segment: string)
    requires '.' !in segment
    ensures DotFree(Expand(segment)) && AllTrimmed(Expand(segment))
    ensures Trim(segment) != "" ==> Expand(segment)[0] != ""
  {
    match Match(Trim(segment))
    case Some(access) =>
      if access.indices == [] { TrimIsClean(segment); } else { BracketedIsClean(segment, access); }
    case None => TrimIsClean(segment);
  }

  lemma {:induction false} ExpandAllIsClean(segments: seq<string>)
    requires DotFree(segments)
    ensures DotFree(ExpandAll(segments)) && AllTrimmed(ExpandAll(segments))
  {
    if segments != [] {
      ExpandIsClean(segments[0]);
      ExpandAllIsClean(segments[1..]);
    }
  }

  lemma ExpandOne(s: string)
    ensures ExpandAll([s]) == Expand(s)
  {
    assert [s][1..] == [];
    assert ExpandAll([]) == [];
  }

  /** The dotted form of one segment is one empty segment only for a blank one. */
  lemma ExpandIsBlank(s: string)
    requires '.' !in s
    ensures Expand(s) == [""] <==> Trim(s) == ""
  {
    ExpandIsClean(s);
    if Trim(s) == "" {
      assert Match("") == Some(Access("", [])) by { MatchIsExact("", Access("", [])); }
    }
  }

  /** The path with every bracketed index written as a dotted one. */
  function BareDotted(path: string): string { Join(ExpandAll(Split(Normalize(path)))) }

  function Dotted(path: string): string { "$." + BareDotted(path) }

  lemma DottedIsEmpty(path: string)
    ensures Join(ExpandAll(Split(Normalize(path)))) == "" <==> Normalize(path) == ""
  {
    var s := Normalize(path);
    JoinIsEmpty(ExpandAll(Split(s)));
    SplitSingle(s);
    if s == "" {
      SplitPlain(s);
      TrimKeeps(s);
      ExpandOne(s);
      ExpandIsBlank(s);
    } else if |Split(s)| == 1 {
      NormalizeEndsWell(path);
      EndsWellIsNotBlank(s);
      ExpandOne(s);
      ExpandIsBlank(s);
    }
  }

  lemma DottedMeans(path: string)
    ensures PathHops(Dotted(path)) == if Normalize(path) == "" then None else Hops(ExpandAll(Split(Normalize(path))))
  {
    var dotted := ExpandAll(Split(Normalize(path)));
    ExpandAllIsClean(Split(Normalize(path)));
    AnchoredMeans(dotted);
    DottedIsEmpty(path);
    JoinIsEmpty(dotted);
  }

  /** Writing bracketed indices dotted leaves the extracted text unchanged, for every body, nulls on the way
      included. */
  lemma DottedExtractsTheSame(printer: Json -> string, body: Json, path: string)
    requires AllRewritable(Split(Normalize(path)))
    ensures Extract(printer, body, Dotted(path)) == Extract(printer, body, path)
  {
    DottedMeans(path);
    ExpandAllMeans(Split(Normalize(path)));
    SameReadingIsSameMeaning(printer, Dotted(path), path);
  }

  /** A path that reads something extracts the same in dotted form, from every body, exactly when all its segments are
      rewritable; one that never reads anything, exactly when its dotted form never does. */
  lemma DottedIsExact(printer: Json -> string, path: string)
    ensures (forall body :: Extract(printer, body, Dotted(path)) == Extract(printer, body, path)) <==>
              if NeverReads(path) then NeverReads(Dotted(path)) else AllRewritable(Split(Normalize(path)))
  {
    SameReadingIsSameMeaning(printer, Dotted(path), path);
    NeverReadsMeans(path);
    NeverReadsMeans(Dotted(path));
    DottedMeans(path);
    ExpandAllMeans(Split(Normalize(path)));
  }

  /** The first hop of the first written segment is that of the path. */
  lemma FirstHopStays(segment: string)
    requires '.' !in segment && SegmentHops(segment).Some? && Dollar(Expand(segment))
    ensures SegmentHops(segment).value != [] && SegmentHops(Expand(segment)[0]).Some?
    ensures SegmentHops(Expand(segment)[0]).value != []
    ensures SegmentHops(Expand(segment)[0]).value[0] == SegmentHops(segment).value[0]
  {
    ExpandIsClean(segment);
    var first := Expand(segment)[0];
    assert Atoi(first) == None;
    assert Match(Trim(segment)).Some?;
    var access := Match(Trim(segment)).value;
    if access.indices == [] {
      TrimIdempotent(segment);
      DollarMeans(first);
    } else {
      BracketedParts(segment, access);
      BracketedMeans(segment, access);
      if Trim(access.base) != "" { FieldMeans(first); }
    }
  }

  lemma BareDottedMeans(path: string)
    requires Normalize(path) != "" && !Dollar(ExpandAll(Split(Normalize(path))))
    ensures PathHops(BareDotted(path)) == Hops(ExpandAll(Split(Normalize(path))))
  {
    var dotted := ExpandAll(Split(Normalize(path)));
    ExpandAllIsClean(Split(Normalize(path)));
    BareNormalizes(dotted);
    DottedIsEmpty(path);
    SplitJoin(dotted);
  }

  lemma DollarDottedIsLost(path: string)
    requires PathHops(path).Some? && Dollar(ExpandAll(Split(Normalize(path))))
    ensures PathHops(BareDotted(path)) != PathHops(path)
  {
    var segments := Split(Normalize(path));
    var dotted := ExpandAll(segments);
    ExpandAllIsClean(segments);
    ExpandAllMeans(segments);
    assert dotted[0] == Expand(segments[0])[0] by { ExpandNonEmpty(segments[0]); }
    FirstHopStays(segments[0]);
    DollarIsLost(dotted, PathHops(path).value);
  }

  /** Without the anchor the same holds, unless the written path begins with a dollar sign: a path that reads something
      then changes its meaning. */
  lemma BareDottedIsExact(printer: Json -> string, path: string)
    ensures (forall body :: Extract(printer, body, BareDotted(path)) == Extract(printer, body, path)) <==>
              if NeverReads(path) then NeverReads(BareDotted(path))
              else AllRewritable(Split(Normalize(path))) && !Dollar(ExpandAll(Split(Normalize(path))))
  {
    SameReadingIsSameMeaning(printer, BareDotted(path), path);
    NeverReadsMeans(path);
    NeverReadsMeans(BareDotted(path));
    var segments := Split(Normalize(path));
    ExpandAllMeans(segments);
    if !NeverReads(path) {
      if Dollar(ExpandAll(segments)) { DollarDottedIsLost(path); } else { BareDottedMeans(path); }
    }
  }

  // ------------------------------------------------------------------------------------------ blank segments dropped

  /** The segments that are not blank, trimmed. */
  function Filled(segments: seq<string>): seq<string> {
    if segments == [] then []
    else (if Trim(segments[0]) == "" then [] else [Trim(segments[0])]) + Filled(segments[1..])
  }

  lemma {:induction false} FilledMeans(segments: seq<string>)
    ensures Hops(Filled(segments)) == Hops(segments)
    decreases |segments|
  {
    if segments != [] {
      FilledMeans(segments[1..]);
      TrimIdempotent(segments[0]);
      if Trim(segments[0]) == "" {
        assert Filled(segments) == Filled(segments[1..]);
        if Hops(segments[1..]).Some? { assert [] + Hops(segments[1..]).value == Hops(segments[1..]).value; }
      } else {
        assert Filled(segments)[1..] == Filled(segments[1..]);
      }
    }
  }

  lemma {:induction false} FilledIsClean(segments: seq<string>)
    requires DotFree(segments)
    ensures DotFree(Filled(segments)) && AllTrimmed(Filled(segments)) && "" !in Filled(segments)
  {
    if segments != [] {
      var from, to := TrimShape(segments[0]);
      TrimSubset(segments[0]);
      FilledIsClean(segments[1..]);
    }
  }

  /** The path without its blank segments. */
  function BareCompact(path: string): string { Join(Filled(Split(Normalize(path)))) }

  function Compact(path: string): string { "$." + BareCompact(path) }

  /** The path reads the whole body: it is not empty, but all its segments are blank, as in a single dot. */
  predicate AllBlank(path: string) { Normalize(path) != "" && Filled(Split(Normalize(path))) == [] }

  /** The empty path has no segment that is not blank. */
  lemma FilledMeansPath(path: string)
    ensures AllBlank(path) ==> PathHops(path) == Some([])
    ensures !AllBlank(path) ==>
              var filled := Filled(Split(Normalize(path)));
              PathHops(path) == if filled == [] then None else Hops(filled)
  {
    FilledMeans(Split(Normalize(path)));
    if Normalize(path) == "" {
      TrimKeeps("");
      assert [""][1..] == [];
      assert Filled([""]) == [];
    }
  }

  /** Dropping blank segments leaves the extracted text unchanged for every body, unless every segment is blank: the
      path then extracts the whole body, and what is left of it extracts nothing. */
  lemma CompactIsExact(printer: Json -> string, path: string)
    ensures (forall body :: Extract(printer, body, Compact(path)) == Extract(printer, body, path)) <==> !AllBlank(path)
  {
    var filled := Filled(Split(Normalize(path)));
    SameReadingIsSameMeaning(printer, Compact(path), path);
    FilledIsClean(Split(Normalize(path)));
    FilledMeansPath(path);
    AnchoredMeans(filled);
  }

  /** Without the anchor there is a second exception: a path that reads something, with a dollar sign at the front of
      its first segment that is not blank. */
  lemma BareCompactIsExact(printer: Json -> string, path: string)
    ensures (forall body :: Extract(printer, body, BareCompact(path)) == Extract(printer, body, path)) <==>
              !AllBlank(path) && (!Dollar(Filled(Split(Normalize(path)))) || NeverReads(path))
  {
    var filled := Filled(Split(Normalize(path)));
    SameReadingIsSameMeaning(printer, BareCompact(path), path);
    FilledIsClean(Split(Normalize(path)));
    FilledMeansPath(path);
    NeverReadsMeans(path);
    if !Dollar(filled) {
      BareNormalizes(filled);
      if filled != [] {
        JoinIsEmpty(filled);
        SplitJoin(filled);
      }
    } else if NeverReads(path) {
      UndollaredNeverReads(filled);
    } else {
      FirstHop(filled);
      DollarIsLost(filled, PathHops(path).value);
    }
  }

  /** The shortest path of blank segments only. */
  lemma SingleDotIsAllBlank()
    ensures AllBlank(".")
  {
  }

  lemma DotThenDollar()
    ensures Normalize(".$") == ".$" && Split(".$") == ["", "$"] && Filled(["", "$"]) == ["$"]
  {
    TrimKeeps(".$");
    TrimKeeps("$");
    TrimKeeps("");
    assert "" + "." + "$" == ".$";
    SplitFirst("", "$");
    SplitPlain("$");
    assert ["", "$"][1..] == ["$"] && ["$"][1..] == [];
    assert Filled([]) == [];
    assert Filled(["$"]) == ["$"];
  }

  /** A path that loses its meaning with its leading blank segment: what is left, a dollar sign, extracts nothing. */
  lemma DollarAfterBlank(printer: Json -> string)
    ensures var body := Object(map["$" := Text("x")]);
            BareCompact(".$") == "$" && Extract(printer, body, ".$") == "x" && Extract(printer, body, "$") == ""
  {
    DotThenDollar();
    var body := Object(map["$" := Text("x")]);
    ExtractMeans(printer, body, ".$");
    DollarAlone();
    HopsOfOne("$");
    FilledMeans(["", "$"]);
    assert Follow(body, [Field("$")]) == Text("x") by { FollowOne(body, Field("$")); }
    assert Normalize("$") == "" by { TrimKeeps("$"); assert "$"[1..] == ""; }
  }
}
