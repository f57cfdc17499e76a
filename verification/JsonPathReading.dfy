/** What is read, said without the reader: which texts are integers, and what a path written from names and numbers
    extracts. */
module JsonPathReading {
  import opened Wrappers
  import opened Runes
  import opened JsonPath
  import opened JsonPathMeaning
  import opened JsonPathStrings
  import opened JsonPathLegible
  import opened JsonPathDollar

  // ------------------------------------------------------------------------------------------ trimming

  /** Trimming cuts spaces at both ends, and all of them. */
  lemma TrimIsExact(s: string) returns (front: string, back: string)
    ensures s == front + Trim(s) + back && Trimmed(Trim(s))
    ensures forall i :: 0 <= i < |front| ==> IsSpace(front[i] as int)
    ensures forall i :: 0 <= i < |back| ==> IsSpace(back[i] as int)
  {
    var left := TrimLeft(s);
    front, back := LeadingCut(s), TrailingCut(left);
    var from, to := TrimShape(s);
    Regroup(front, Trim(s), back);
  }

  function LeadingCut(s: string): (front: string)
    ensures s == front + TrimLeft(s) && forall i :: 0 <= i < |front| ==> IsSpace(front[i] as int)
  {
    TrimLeftShape(s);
    var n := |s| - |TrimLeft(s)|;
    assert forall i :: 0 <= i < n ==> IsSpace(s[i] as int) by {
      forall i | 0 <= i < n ensures IsSpace(s[i] as int) { LeadingSpaces(s, i); }
    }
    s[..n]
  }

  function TrailingCut(s: string): (back: string)
    ensures s == TrimRight(s) + back && forall i :: 0 <= i < |back| ==> IsSpace(back[i] as int)
  {
    TrimRightShape(s);
    var n := |TrimRight(s)|;
    assert forall i :: n <= i < |s| ==> IsSpace(s[i] as int) by {
      forall i | n <= i < |s| ensures IsSpace(s[i] as int) { TrailingSpaces(s, i); }
    }
    s[n..]
  }

  lemma {:induction false} TrailingSpaces(s: string, i: nat)
    requires |TrimRight(s)| <= i < |s|
    ensures IsSpace(s[i] as int)
  {
    if i < |s| - 1 { TrailingSpaces(s[..|s| - 1], i); }
  }

  // ------------------------------------------------------------------------------------------ integers

  /** A number in decimal, without leading zeros. */
  function Show(n: nat): (s: string)
    ensures IsIndex(s)
  {
    if n < 10 then ["0123456789"[n]] else Show(n / 10) + ["0123456789"[n % 10]]
  }

  function Zeros(k: nat): (s: string)
    ensures Digits(s) && |s| == k
  {
    seq(k, _ => '0')
  }

  lemma {:induction false} ShownReadsBack(n: nat)
    ensures Decimal(Show(n)) == n
  {
    var s := Show(n);
    if n < 10 {
      assert s[..|s| - 1] == "";
    } else {
      ShownReadsBack(n / 10);
      assert s[..|s| - 1] == Show(n / 10);
    }
  }

  lemma {:induction false} ZerosReadAsNothing(k: nat, s: string)
    requires Digits(s)
    ensures Decimal(Zeros(k) + s) == Decimal(s)
    decreases |s|, k
  {
    var whole := Zeros(k) + s;
    if s != "" {
      ZerosReadAsNothing(k, s[..|s| - 1]);
      assert whole[..|whole| - 1] == Zeros(k) + s[..|s| - 1];
    } else if k > 0 {
      ZerosReadAsNothing(k - 1, s);
      assert whole[..k - 1] == Zeros(k - 1) + s;
    }
  }

  lemma OneMoreDigit(m: nat, x: nat)
    requires x < 10
    ensures Show(10 * m + x) == (if m == 0 then "" else Show(m)) + ["0123456789"[x]]
  {
    assert (10 * m + x) / 10 == m && (10 * m + x) % 10 == x;
  }

  lemma ZeroAfterZeros(k: nat)
    ensures Zeros(k) + Show(0) == Zeros(k + 1)
  {
  }

  lemma DigitOf(c: char) returns (x: nat)
    requires '0' <= c <= '9'
    ensures x < 10 && x == c as int - '0' as int && "0123456789"[x] == c
  {
    x := c as int - '0' as int;
  }

  lemma DigitAppends(j: nat, m: nat, x: nat) returns (k: nat)
    requires x < 10
    ensures Zeros(j) + Show(m) + ["0123456789"[x]] == Zeros(k) + Show(10 * m + x)
  {
    OneMoreDigit(m, x);
    if m == 0 { ZeroAfterZeros(j); }
    k := if m == 0 then j + 1 else j;
    Regroup(Zeros(j), Show(m), ["0123456789"[x]]);
  }

  /** A run of digits, taken as zeros and a number. */
  predicate ShownAs(digits: string, k: nat, n: int) { n >= 0 && digits == Zeros(k) + Show(n) }

  lemma OneDigit(c: char)
    requires '0' <= c <= '9'
    ensures ShownAs([c], 0, c as int - '0' as int)
  {
    var x := DigitOf(c);
    OneMoreDigit(0, x);
  }

  lemma NextDigit(front: string, c: char, j: nat, m: nat) returns (k: nat)
    requires ShownAs(front, j, m) && '0' <= c <= '9'
    ensures ShownAs(front + [c], k, 10 * m + (c as int - '0' as int))
  {
    var x := DigitOf(c);
    k := DigitAppends(j, m, x);
  }

  lemma LastDigit(digits: string) returns (front: string, last: char)
    requires IsIndex(digits)
    ensures digits == front + [last] && |front| < |digits| && Digits(front) && '0' <= last <= '9'
    ensures Decimal(digits) == 10 * Decimal(front) + (last as int - '0' as int)
  {
    front, last := digits[..|digits| - 1], digits[|digits| - 1];
  }

  /** Any run of digits is a number in decimal after some zeros. */
  lemma {:induction false} DigitsAreShown(digits: string) returns (k: nat, n: int)
    requires IsIndex(digits)
    ensures n == Decimal(digits) && ShownAs(digits, k, n)
    decreases |digits|
  {
    var front, last := LastDigit(digits);
    if front == "" {
      OneDigit(last);
      k, n := 0, last as int - '0' as int;
    } else {
      var j, m := DigitsAreShown(front);
      k := NextDigit(front, last, j, m);
      n := 10 * m + (last as int - '0' as int);
    }
  }

  lemma Regroup(a: string, b: string, c: string)
    ensures a + b + c == a + (b + c) && "" + c == c
  {
  }

  /** `s` is a sign or none, zeros, and the number without its sign. */
  predicate Numeral(s: string, sign: string, k: nat, v: int) {
    && s == sign + Zeros(k) + Show(if v < 0 then -v else v)
    && ((sign == "-" && v <= 0) || ((sign == "" || sign == "+") && v >= 0))
  }

  lemma UnsignedReads(digits: string, n: int)
    requires IsIndex(digits) && n >= 0 && Decimal(digits) == n
    ensures Atoi(digits) == if n < 0x8000_0000_0000_0000 then Some(n) else None
  {
    assert '0' <= digits[0] <= '9';
  }

  lemma SignReads(sign: char, digits: string, n: int)
    requires IsIndex(digits) && n >= 0 && Decimal(digits) == n && (sign == '+' || sign == '-')
    ensures var v := if sign == '-' then -n else n;
            Atoi([sign] + digits) == if -0x8000_0000_0000_0000 <= v < 0x8000_0000_0000_0000 then Some(v) else None
  {
    assert ([sign] + digits)[1..] == digits;
  }

  lemma SignedReads(sign: string, digits: string, n: int)
    requires IsIndex(digits) && n >= 0 && Decimal(digits) == n && (sign == "" || sign == "+" || sign == "-")
    ensures var v := if sign == "-" then -n else n;
            Atoi(sign + digits) == if -0x8000_0000_0000_0000 <= v < 0x8000_0000_0000_0000 then Some(v) else None
  {
    if sign == "" {
      UnsignedReads(digits, n);
      assert sign + digits == digits;
    } else {
      SignReads(sign[0], digits, n);
      assert sign == [sign[0]];
    }
  }

  lemma NumeralReadsBack(s: string, sign: string, k: nat, v: int)
    requires Numeral(s, sign, k, v)
    ensures Atoi(s) == if -0x8000_0000_0000_0000 <= v < 0x8000_0000_0000_0000 then Some(v) else None
  {
    var n := if v < 0 then -v else v;
    ShownReadsBack(n);
    ZerosReadAsNothing(k, Show(n));
    SignedReads(sign, Zeros(k) + Show(n), n);
    Regroup(sign, Zeros(k), Show(n));
  }

  lemma IntegerSplits(s: string) returns (sign: string, digits: string)
    requires Atoi(s).Some?
    ensures s == sign + digits && IsIndex(digits) && (sign == "" || sign == "+" || sign == "-")
    ensures Atoi(s).value == if sign == "-" then -Decimal(digits) else Decimal(digits)
  {
    sign := if s[0] == '-' then "-" else if s[0] == '+' then "+" else "";
    digits := s[|sign|..];
  }

  lemma IntegerIsNumeral(s: string) returns (sign: string, k: nat)
    requires Atoi(s).Some?
    ensures Numeral(s, sign, k, Atoi(s).value)
  {
    var digits;
    sign, digits := IntegerSplits(s);
    var n;
    k, n := DigitsAreShown(digits);
    Regroup(sign, Zeros(k), Show(n));
  }

  /** Which texts are read as integers, and as which: decimal numerals of the 64-bit range, with or without a sign and
      leading zeros. */
  lemma AtoiIsExact(s: string, v: int)
    ensures Atoi(s) == Some(v) <==>
              -0x8000_0000_0000_0000 <= v < 0x8000_0000_0000_0000 && exists sign, k :: Numeral(s, sign, k, v)
  {
    if Atoi(s) == Some(v) {
      var sign, k := IntegerIsNumeral(s);
      assert Numeral(s, sign, k, v);
    } else if -0x8000_0000_0000_0000 <= v < 0x8000_0000_0000_0000 && exists sign, k :: Numeral(s, sign, k, v) {
      var sign, k :| Numeral(s, sign, k, v);
      NumeralReadsBack(s, sign, k, v);
    }
  }

  // ------------------------------------------------------------------------------------------ written paths

  /** A field, if it has a name, and elements below it. */
  datatype Part = Part(name: string, indices: seq<nat>)

  function Shown(indices: seq<nat>): (shown: seq<string>)
    ensures forall i :: 0 <= i < |shown| ==> IsIndex(shown[i])
  {
    if indices == [] then [] else [Show(indices[0])] + Shown(indices[1..])
  }

  function Elements(indices: seq<nat>): seq<Hop> {
    if indices == [] then [] else [Element(indices[0])] + Elements(indices[1..])
  }

  function PartText(part: Part): string { part.name + Bracketed(Shown(part.indices)) }

  function PartHops(part: Part): seq<Hop> {
    (if part.name == "" then [] else [Field(part.name)]) + Elements(part.indices)
  }

  /** The name has no dots, brackets or outer spaces and is no integer, and the indices are 64-bit integers. */
  predicate Writable(part: Part) {
    && Trimmed(part.name) && Plain(part.name) && '.' !in part.name
    && (part.indices == [] ==> part.name != "" && Atoi(part.name) == None)
    && forall i :: 0 <= i < |part.indices| ==> part.indices[i] < 0x8000_0000_0000_0000
  }

  predicate AllWritable(parts: seq<Part>) { forall i :: 0 <= i < |parts| ==> Writable(parts[i]) }

  function PartTexts(parts: seq<Part>): (texts: seq<string>)
    ensures |texts| == |parts|
  {
    if parts == [] then [] else [PartText(parts[0])] + PartTexts(parts[1..])
  }

  function PartsHops(parts: seq<Part>): seq<Hop> {
    if parts == [] then [] else PartHops(parts[0]) + PartsHops(parts[1..])
  }

  function Written(parts: seq<Part>): string { "$." + Join(PartTexts(parts)) }

  lemma IndexReadsBack(n: nat)
    requires n < 0x8000_0000_0000_0000
    ensures Atoi(Show(n)) == Some(n)
  {
    assert Show(n) == "" + Zeros(0) + Show(n);
    assert Numeral(Show(n), "", 0, n);
    NumeralReadsBack(Show(n), "", 0, n);
  }

  lemma IndexMeansElement(n: nat)
    requires n < 0x8000_0000_0000_0000
    ensures IndexHop(Show(n)) == Some(Element(n))
  {
    IndexReadsBack(n);
  }

  lemma OneMoreIndex(first: string, rest: seq<string>, hop: Hop, hops: seq<Hop>)
    requires IndexHop(first) == Some(hop) && IndexHops(rest) == Some(hops)
    ensures IndexHops([first] + rest) == Some([hop] + hops)
  {
    assert ([first] + rest)[1..] == rest;
  }

  lemma {:induction false} IndicesReadBack(indices: seq<nat>)
    requires forall i :: 0 <= i < |indices| ==> indices[i] < 0x8000_0000_0000_0000
    ensures IndexHops(Shown(indices)) == Some(Elements(indices))
  {
    if indices != [] {
      var first, rest := indices[0], indices[1..];
      IndexMeansElement(first);
      IndicesReadBack(rest);
      OneMoreIndex(Show(first), Shown(rest), Element(first), Elements(rest));
    }
  }

  lemma {:induction false} BracketsAreClean(indices: seq<nat>)
    ensures var s := Bracketed(Shown(indices));
            '.' !in s && (indices != [] ==> s != "" && s[0] == '[' && s[|s| - 1] == ']')
  {
    if indices != [] {
      BracketsAreClean(indices[1..]);
      assert Shown(indices)[1..] == Shown(indices[1..]);
      DigitsAreSimple(Show(indices[0]));
      var rest := Bracketed(Shown(indices[1..]));
      var s := Bracketed(Shown(indices));
      assert s == "[" + Show(indices[0]) + "]" + rest;
      assert rest == "" ==> s[|s| - 1] == ']';
    }
  }

  lemma PartIsTrimmed(part: Part)
    requires Writable(part)
    ensures Trimmed(PartText(part)) && '.' !in PartText(part) && PartText(part) != "" && Atoi(PartText(part)) == None
  {
    var s := PartText(part);
    BracketsAreClean(part.indices);
    if part.indices == [] {
      assert s == part.name;
    } else {
      assert s[|part.name|] == '[';
      NotAnInteger(s, |part.name|);
      assert part.name != "" ==> s[0] == part.name[0];
    }
  }

  lemma PartMatches(part: Part)
    requires Writable(part)
    ensures Match(PartText(part)) == Some(Access(part.name, Shown(part.indices)))
  {
    MatchIsExact(PartText(part), Access(part.name, Shown(part.indices)));
  }

  lemma PartAccesses(part: Part)
    requires Writable(part)
    ensures AccessHops(Access(part.name, Shown(part.indices))) == Some(PartHops(part))
  {
    TrimKeeps(part.name);
    IndicesReadBack(part.indices);
    if part.name == "" { assert PartHops(part) == Elements(part.indices); }
  }

  lemma PartMeans(part: Part)
    requires Writable(part)
    ensures SegmentHops(PartText(part)) == Some(PartHops(part))
  {
    PartIsTrimmed(part);
    TrimKeeps(PartText(part));
    PartMatches(part);
    PartAccesses(part);
  }

  lemma {:induction false} PartsMean(parts: seq<Part>)
    requires AllWritable(parts)
    ensures Hops(PartTexts(parts)) == Some(PartsHops(parts))
    ensures AllTrimmed(PartTexts(parts)) && DotFree(PartTexts(parts))
  {
    if parts != [] {
      PartMeans(parts[0]);
      PartIsTrimmed(parts[0]);
      PartsMean(parts[1..]);
      var first, rest := PartText(parts[0]), PartTexts(parts[1..]);
      assert PartTexts(parts) == [first] + rest && ([first] + rest)[1..] == rest;
    }
  }

  /** A path written from names and numbers extracts what is found by going through these fields and elements. */
  lemma WrittenPathReads(printer: Json -> string, body: Json, parts: seq<Part>)
    requires parts != [] && AllWritable(parts)
    ensures Extract(printer, body, Written(parts)) == Render(printer, Follow(body, PartsHops(parts)))
  {
    PartsMean(parts);
    PartIsTrimmed(parts[0]);
    AnchoredMeans(PartTexts(parts));
    ExtractMeans(printer, body, Written(parts));
  }

  /** Going through a field or an element, one hop at a time; where there is none, nothing is below. */
  lemma FollowSpelledOut(v: Json, hop: Hop, rest: seq<Hop>)
    ensures Follow(v, []) == v
    ensures Follow(v, [hop] + rest)
            == match hop
               case Field(name) => if v.Object? && name in v.record then Follow(v.record[name], rest) else Null
               case Element(i) => if v.Array? && i < |v.rows| then Follow(v.rows[i], rest) else Null
  {
    assert ([hop] + rest)[1..] == rest;
    FollowNull(rest);
  }

  /** For one: the element of an array in a field. */
  lemma ElementOfField(printer: Json -> string, name: string, rows: seq<Json>, n: nat)
    requires Writable(Part(name, [n])) && name != ""
    ensures Extract(printer, Object(map[name := Array(rows)]), "$." + name + "[" + Show(n) + "]")
            == if n < |rows| then Render(printer, rows[n]) else ""
  {
    var part, body := Part(name, [n]), Object(map[name := Array(rows)]);
    var parts, hops := [part], [Field(name), Element(n)];
    WrittenPathReads(printer, body, parts);
    OnePart(part, n);
    FollowSpelledOut(body, Field(name), [Element(n)]);
    FollowSpelledOut(Array(rows), Element(n), []);
    assert [Field(name)] + [Element(n)] == hops && [Element(n)] + [] == [Element(n)];
    if n < |rows| { FollowSpelledOut(rows[n], Element(n), []); }
  }

  lemma OnePart(part: Part, n: nat)
    requires part.indices == [n] && part.name != ""
    ensures Written([part]) == "$." + part.name + "[" + Show(n) + "]"
    ensures PartsHops([part]) == [Field(part.name), Element(n)]
  {
    var parts := [part];
    assert parts[1..] == [] && PartTexts(parts) == [PartText(part)];
    var indices: seq<nat>, shown := [n], [Show(n)];
    assert indices[1..] == [] && shown[1..] == [];
    assert Shown(indices) == shown + Shown([]) == shown;
    assert Elements(indices) == [Element(n)] + Elements([]) == [Element(n)];
    assert part.indices == indices;
    assert Bracketed(shown) == "[" + Show(n) + "]" + Bracketed([]) == "[" + Show(n) + "]";
    assert Written(parts) == "$." + (part.name + ("[" + Show(n) + "]")) == "$." + part.name + "[" + Show(n) + "]";
    assert PartHops(part) == [Field(part.name), Element(n)];
    assert PartsHops(parts) == PartHops(part) + PartsHops([]);
  }

  /** What comes out for a value: nothing for nothing, text as it is, and anything else printed and trimmed. */
  lemma RenderSpelledOut(printer: Json -> string, text: string, value: Json)
    ensures Render(printer, Null) == "" && Render(printer, Text(text)) == text
    ensures value.Scalar? || value.Array? || value.Object? ==> Render(printer, value) == Trim(printer(value))
  {
  }
}
