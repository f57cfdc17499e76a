/** What a JSON path means: the fields and elements it goes through, one after the other, or that it never reads
    anything. Two paths extract the same from every body exactly when they mean the same. */
module JsonPathMeaning {
  import opened Wrappers
  import opened JsonPath

  datatype Hop = Field(name: string) | Element(index: nat)

  // ------------------------------------------------------------------------------------------ the meaning

  function IndexHop(digits: string): Option<Hop> {
    if Atoi(digits).Some? && Atoi(digits).value >= 0 then Some(Element(Atoi(digits).value)) else None
  }

  function Both(first: Option<seq<Hop>>, second: Option<seq<Hop>>): Option<seq<Hop>> {
    if first.Some? && second.Some? then Some(first.value + second.value) else None
  }

  function IndexHops(indices: seq<string>): Option<seq<Hop>> {
    if indices == [] then Some([])
    else if IndexHop(indices[0]) == None then None
    else Both(Some([IndexHop(indices[0]).value]), IndexHops(indices[1..]))
  }

  /** The hops of an access, None if it never reads anything. */
  function AccessHops(access: Access): Option<seq<Hop>> {
    var base := Trim(access.base);
    if base != "" then Both(Some([Field(base)]), IndexHops(access.indices))
    else if access.indices == [] then None
    else IndexHops(access.indices)
  }

  /** The hops of a segment. A blank segment goes nowhere. */
  function SegmentHops(segment: string): Option<seq<Hop>> {
    var trimmed := Trim(segment);
    if trimmed == "" then Some([])
    else if Atoi(trimmed).Some? then IndexHops([trimmed])
    else if Match(trimmed) == None then None
    else AccessHops(Match(trimmed).value)
  }

  function Hops(segments: seq<string>): Option<seq<Hop>> {
    if segments == [] then Some([]) else Both(SegmentHops(segments[0]), Hops(segments[1..]))
  }

  /** The meaning of a path. The empty path never reads anything. */
  function PathHops(path: string): Option<seq<Hop>> {
    if Normalize(path) == "" then None else Hops(Split(Normalize(path)))
  }

  // ------------------------------------------------------------------------------------------ following it

  function OrNull(found: Option<Json>): Json {
    match found
    case None => Null
    case Some(v) => v
  }

  function Follow(v: Json, hops: seq<Hop>): Json
    decreases |hops|
  {
    if hops == [] then v
    else
      match hops[0]
      case Field(name) => Follow(OrNull(ReadField(v, name)), hops[1..])
      case Element(index) => Follow(OrNull(ReadIndex(v, index)), hops[1..])
  }

  function FollowAll(v: Json, hops: Option<seq<Hop>>): Json {
    if hops == None then Null else Follow(v, hops.value)
  }

  lemma {:induction false} FollowNull(hops: seq<Hop>)
    ensures Follow(Null, hops) == Null
    decreases |hops|
  {
    if hops != [] { FollowNull(hops[1..]); }
  }

  lemma {:induction false} FollowAppend(v: Json, a: seq<Hop>, b: seq<Hop>)
    ensures Follow(v, a + b) == Follow(Follow(v, a), b)
    decreases |a|
  {
    if a == [] {
      assert a + b == b;
    } else {
      assert (a + b)[1..] == a[1..] + b;
      var next := if a[0].Field? then OrNull(ReadField(v, a[0].name)) else OrNull(ReadIndex(v, a[0].index));
      FollowAppend(next, a[1..], b);
    }
  }

  lemma FollowBoth(v: Json, a: Option<seq<Hop>>, b: Option<seq<Hop>>)
    ensures FollowAll(v, Both(a, b)) == FollowAll(FollowAll(v, a), b)
  {
    if a.Some? && b.Some? {
      FollowAppend(v, a.value, b.value);
    } else if b.Some? {
      FollowNull(b.value);
    }
  }

  lemma FollowOne(v: Json, hop: Hop)
    ensures Follow(v, [hop]) == if hop.Field? then OrNull(ReadField(v, hop.name)) else OrNull(ReadIndex(v, hop.index))
  {
  }

  lemma {:induction false} IndicesMean(v: Json, indices: seq<string>)
    ensures OrNull(ReadIndices(v, indices)) == FollowAll(v, IndexHops(indices))
    decreases |indices|
  {
    if indices != [] && IndexHop(indices[0]).Some? {
      var hop := IndexHop(indices[0]).value;
      FollowBoth(v, Some([hop]), IndexHops(indices[1..]));
      FollowOne(v, hop);
      match ReadIndex(v, hop.index)
      case None => if IndexHops(indices[1..]).Some? { FollowNull(IndexHops(indices[1..]).value); }
      case Some(next) => IndicesMean(next, indices[1..]);
    }
  }

  lemma SegmentMeans(v: Json, segment: string)
    ensures Step(v, segment) == FollowAll(v, SegmentHops(segment))
  {
    var trimmed := Trim(segment);
    if trimmed != "" {
      if Atoi(trimmed).Some? {
        IndexMeans(v, trimmed);
      } else if Match(trimmed).Some? {
        AccessMeans(v, trimmed, Match(trimmed).value);
      }
    }
  }

  lemma IndexMeans(v: Json, digits: string)
    requires Atoi(digits).Some?
    ensures OrNull(ReadIndex(v, Atoi(digits).value)) == FollowAll(v, IndexHops([digits]))
  {
    assert [digits][1..] == [];
    assert IndexHops([]) == Some([]);
    if IndexHop(digits).Some? { FollowOne(v, IndexHop(digits).value); }
  }

  lemma AccessMeans(v: Json, trimmed: string, access: Access)
    requires Atoi(trimmed) == None && Match(trimmed) == Some(access) && trimmed != ""
    ensures OrNull(ReadSegment(v, trimmed)) == FollowAll(v, AccessHops(access))
  {
    var base := Trim(access.base);
    if base == "" {
      IndicesMean(v, access.indices);
    } else {
      FollowBoth(v, Some([Field(base)]), IndexHops(access.indices));
      FollowOne(v, Field(base));
      match ReadField(v, base)
      case None => if IndexHops(access.indices).Some? { FollowNull(IndexHops(access.indices).value); }
      case Some(next) => IndicesMean(next, access.indices);
    }
  }

  /** Walking along segments is following their hops. */
  lemma {:induction false} WalkMeans(v: Json, segments: seq<string>)
    ensures Walk(v, segments) == FollowAll(v, Hops(segments))
    decreases |segments|
  {
    if segments != [] {
      SegmentMeans(v, segments[0]);
      FollowBoth(v, SegmentHops(segments[0]), Hops(segments[1..]));
      var next := Step(v, segments[0]);
      if next == Null {
        if Hops(segments[1..]).Some? { FollowNull(Hops(segments[1..]).value); }
      } else {
        WalkMeans(next, segments[1..]);
      }
    }
  }

  lemma ExtractMeans(printer: Json -> string, body: Json, path: string)
    ensures Extract(printer, body, path) == Render(printer, FollowAll(body, PathHops(path)))
  {
    if Normalize(path) != "" { WalkMeans(body, Split(Normalize(path))); }
  }

  // ------------------------------------------------------------------------------- same meaning, same reading

  /** A body in which just these hops lead somewhere. */
  function Build(hops: seq<Hop>): Json {
    if hops == [] then Text("x")
    else
      match hops[0]
      case Field(name) => Object(map[name := Build(hops[1..])])
      case Element(index) => Array(seq(index, _ => Null) + [Build(hops[1..])])
  }

  /** What other hops find there. */
  lemma {:induction false} FollowBuilt(hops: seq<Hop>, other: seq<Hop>)
    ensures Follow(Build(hops), other) == if other <= hops then Build(hops[|other|..]) else Null
    decreases |hops|
  {
    if other != [] {
      FollowNull(other[1..]);
      if hops != [] && other[0] == hops[0] {
        FollowBuilt(hops[1..], other[1..]);
        assert other <= hops <==> other[1..] <= hops[1..] by {
          assert other == [other[0]] + other[1..] && hops == [hops[0]] + hops[1..];
        }
        assert other <= hops ==> hops[|other|..] == hops[1..][|other| - 1..];
      } else {
        assert !(other <= hops);
      }
    }
  }

  lemma BuiltIsFound(printer: Json -> string, hops: seq<Hop>, other: Option<seq<Hop>>)
    requires other.Some? ==> !(other.value <= hops)
    ensures Render(printer, FollowAll(Build(hops), Some(hops))) != Render(printer, FollowAll(Build(hops), other))
  {
    FollowBuilt(hops, hops);
    assert hops[|hops|..] == [];
    if other.Some? { FollowBuilt(hops, other.value); }
  }

  lemma ShorterIsNoExtension(a: seq<Hop>, b: seq<Hop>)
    requires a != b && b <= a
    ensures !(a <= b)
  {
  }

  /** Different meanings are told apart by some body, however values are printed. */
  lemma Distinguish(printer: Json -> string, a: Option<seq<Hop>>, b: Option<seq<Hop>>) returns (body: Json)
    requires a != b
    ensures Render(printer, FollowAll(body, a)) != Render(printer, FollowAll(body, b))
  {
    if a.Some? && (b == None || !(b.value <= a.value)) {
      body := Build(a.value);
      BuiltIsFound(printer, a.value, b);
    } else {
      body := Build(b.value);
      if a.Some? { ShorterIsNoExtension(a.value, b.value); }
      BuiltIsFound(printer, b.value, a);
    }
  }

  /** Two paths extract the same from every body if and only if they mean the same. */
  lemma SameReadingIsSameMeaning(printer: Json -> string, a: string, b: string)
    ensures (forall body :: Extract(printer, body, a) == Extract(printer, body, b)) <==> PathHops(a) == PathHops(b)
  {
    forall body
      ensures Extract(printer, body, a) == Render(printer, FollowAll(body, PathHops(a)))
      ensures Extract(printer, body, b) == Render(printer, FollowAll(body, PathHops(b)))
    {
      ExtractMeans(printer, body, a);
      ExtractMeans(printer, body, b);
    }
    if PathHops(a) != PathHops(b) {
      var body := Distinguish(printer, PathHops(a), PathHops(b));
      assert Extract(printer, body, a) != Extract(printer, body, b);
    }
  }

  // ------------------------------------------------------------------------------------------ lists of segments

  lemma {:induction false} HopsAppend(a: seq<string>, b: seq<string>)
    ensures Hops(a + b) == Both(Hops(a), Hops(b))
    decreases |a|
  {
    if a == [] {
      assert a + b == b;
      if Hops(b).Some? { assert [] + Hops(b).value == Hops(b).value; }
    } else {
      assert (a + b)[1..] == a[1..] + b;
      HopsAppend(a[1..], b);
      BothAssociates(SegmentHops(a[0]), Hops(a[1..]), Hops(b));
    }
  }

  lemma BothAssociates(a: Option<seq<Hop>>, b: Option<seq<Hop>>, c: Option<seq<Hop>>)
    ensures Both(a, Both(b, c)) == Both(Both(a, b), c)
  {
    if a.Some? && b.Some? && c.Some? { assert a.value + (b.value + c.value) == a.value + b.value + c.value; }
  }

  lemma HopsOfOne(segment: string)
    ensures Hops([segment]) == SegmentHops(segment)
  {
    assert [segment][1..] == [];
    assert Hops([]) == Some([]);
    if SegmentHops(segment).Some? { assert SegmentHops(segment).value + [] == SegmentHops(segment).value; }
  }
}
