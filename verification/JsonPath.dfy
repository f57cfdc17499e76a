/** Extraction of a value from a JSON body by a dotted path with bracketed indices. */
module JsonPath {
  import opened Wrappers
  import opened Runes

  /** A decoded JSON value; numbers and booleans are known by their printed form. */
  datatype Json =
    | Null
    | Text(text: string)
    | Scalar(printed: string)
    | Array(rows: seq<Json>)
    | Object(record: map<string, Json>)

  // ------------------------------------------------------------------------------------------ strings and numbers

  function TrimLeft(s: string): string {
    if s != "" && IsSpace(s[0] as int) then TrimLeft(s[1..]) else s
  }

  function TrimRight(s: string): string {
    if s != "" && IsSpace(s[|s| - 1] as int) then TrimRight(s[..|s| - 1]) else s
  }

  /** `strings.TrimSpace`. */
  function Trim(s: string): string { TrimRight(TrimLeft(s)) }

  function Split(s: string): (segments: seq<string>)
    ensures segments != [] && forall i :: 0 <= i < |segments| ==> '.' !in segments[i]
  {
    if s == "" then [""]
    else
      var rest := Split(s[1..]);
      if s[0] == '.' then [""] + rest else [[s[0]] + rest[0]] + rest[1..]
  }

  function Join(segments: seq<string>): string {
    if segments == [] then "" else if |segments| == 1 then segments[0] else segments[0] + "." + Join(segments[1..])
  }

  predicate Digits(s: string) { forall i :: 0 <= i < |s| ==> '0' <= s[i] <= '9' }

  function Decimal(s: string): int
    requires Digits(s)
  {
    if s == "" then 0 else 10 * Decimal(s[..|s| - 1]) + (s[|s| - 1] as int - '0' as int)
  }

  /** `strconv.Atoi` on 64-bit integers. */
  function Atoi(s: string): Option<int> {
    var signed := s != "" && (s[0] == '-' || s[0] == '+');
    var digits := if signed then s[1..] else s;
    if digits == "" || !Digits(digits) then None
    else
      var value := if signed && s[0] == '-' then -Decimal(digits) else Decimal(digits);
      if -0x8000_0000_0000_0000 <= value < 0x8000_0000_0000_0000 then Some(value) else None
  }

  // ------------------------------------------------------------------------------------------ the bracket pattern

  predicate Plain(s: string) { '[' !in s && ']' !in s }

  predicate IsIndex(s: string) { s != "" && Digits(s) }

  /** The length of the part before the first bracket. */
  function BaseLength(s: string): (n: nat)
    ensures n <= |s| && Plain(s[..n]) && (n == |s| || s[n] == '[' || s[n] == ']')
  {
    if s == "" || s[0] == '[' || s[0] == ']' then 0
    else
      var n := BaseLength(s[1..]);
      assert s[..n + 1] == [s[0]] + s[1..][..n];
      n + 1
  }

  function DigitsLength(s: string): (n: nat)
    ensures n <= |s| && Digits(s[..n]) && (n == |s| || !('0' <= s[n] <= '9'))
  {
    if s != "" && '0' <= s[0] <= '9' then
      var n := DigitsLength(s[1..]);
      assert s[..n + 1] == [s[0]] + s[1..][..n];
      n + 1
    else 0
  }

  /** The digit runs of a string of bracketed indices. */
  function Groups(s: string): Option<seq<string>> {
    if s == "" then Some([])
    else if s[0] != '[' then None
    else
      var n := DigitsLength(s[1..]);
      if n == 0 || n + 1 == |s| || s[n + 1] != ']' then None
      else
        match Groups(s[n + 2..])
        case None => None
        case Some(rest) => Some([s[1..n + 1]] + rest)
  }

  datatype Access = Access(base: string, indices: seq<string>)

  /** The match of the access pattern: a base without brackets, then bracketed indices, each possibly absent. */
  function Match(segment: string): Option<Access> {
    var n := BaseLength(segment);
    match Groups(segment[n..])
    case None => None
    case Some(indices) => Some(Access(segment[..n], indices))
  }

  function Bracketed(indices: seq<string>): string {
    if indices == [] then "" else "[" + indices[0] + "]" + Bracketed(indices[1..])
  }

  lemma {:induction false} GroupsSound(s: string)
    ensures Groups(s).Some? ==>
              Bracketed(Groups(s).value) == s && forall i :: 0 <= i < |Groups(s).value| ==> IsIndex(Groups(s).value[i])
  {
    if s != "" && s[0] == '[' {
      var n := DigitsLength(s[1..]);
      if n != 0 && n + 1 != |s| && s[n + 1] == ']' {
        GroupsSound(s[n + 2..]);
        assert s[1..][..n] == s[1..n + 1];
        assert s == "[" + s[1..n + 1] + "]" + s[n + 2..];
      }
    }
  }

  lemma {:induction false} DigitsLengthStops(digits: string, rest: string)
    requires Digits(digits)
    ensures DigitsLength(digits + "]" + rest) == |digits|
  {
    if digits != "" {
      DigitsLengthStops(digits[1..], rest);
      assert (digits + "]" + rest)[1..] == digits[1..] + "]" + rest;
    }
  }

  /** A bracketed index at the front is one group. */
  lemma FirstGroup(index: string, rest: string)
    requires IsIndex(index)
    ensures var s := "[" + index + "]" + rest;
            Groups(s) == match Groups(rest) case None => None case Some(indices) => Some([index] + indices)
  {
    var s, n := "[" + index + "]" + rest, |index|;
    assert s[1..] == index + "]" + rest;
    DigitsLengthStops(index, rest);
    assert s[n + 1] == ']' && s[1..n + 1] == index && s[n + 2..] == rest;
  }

  lemma {:induction false} GroupsComplete(indices: seq<string>)
    requires forall i :: 0 <= i < |indices| ==> IsIndex(indices[i])
    ensures Groups(Bracketed(indices)) == Some(indices)
  {
    if indices != [] {
      FirstGroup(indices[0], Bracketed(indices[1..]));
      GroupsComplete(indices[1..]);
      assert indices == [indices[0]] + indices[1..];
    }
  }

  /** The match finds a reading of the segment if and only if there is one, and there is at most one. */
  lemma MatchIsExact(segment: string, access: Access)
    ensures Match(segment) == Some(access) <==>
              && Plain(access.base)
              && (forall i :: 0 <= i < |access.indices| ==> IsIndex(access.indices[i]))
              && segment == access.base + Bracketed(access.indices)
  {
    var n := BaseLength(segment);
    GroupsSound(segment[n..]);
    assert segment == segment[..n] + segment[n..];
    if && Plain(access.base)
       && (forall i :: 0 <= i < |access.indices| ==> IsIndex(access.indices[i]))
       && segment == access.base + Bracketed(access.indices) {
      var m := |access.base|;
      assert segment[..m] == access.base && segment[m..] == Bracketed(access.indices);
      GroupsComplete(access.indices);
    }
  }

  // ------------------------------------------------------------------------------------------ reading

  function ReadIndex(current: Json, index: int): Option<Json> {
    if current.Array? && 0 <= index < |current.rows| then Some(current.rows[index]) else None
  }

  function ReadField(current: Json, name: string): Option<Json> {
    if current.Object? && name in current.record then Some(current.record[name]) else None
  }

  function ReadIndices(current: Json, indices: seq<string>): Option<Json> {
    if indices == [] then Some(current)
    else if Atoi(indices[0]) == None then None
    else
      match ReadIndex(current, Atoi(indices[0]).value)
      case None => None
      case Some(next) => ReadIndices(next, indices[1..])
  }

  /** What a trimmed, non-empty segment reads: an integer an array element, anything else a field and then elements. */
  function ReadSegment(current: Json, segment: string): Option<Json> {
    if Atoi(segment).Some? then ReadIndex(current, Atoi(segment).value)
    else
      match Match(segment)
      case None => None
      case Some(access) =>
        var base := Trim(access.base);
        if base == "" then (if access.indices == [] then None else ReadIndices(current, access.indices))
        else
          match ReadField(current, base)
          case None => None
          case Some(next) => ReadIndices(next, access.indices)
  }

  method ReadAllIndices(current: Json, indices: seq<string>) returns (found: Option<Json>)
    ensures found == ReadIndices(current, indices)
  {
    var value, i := current, 0;
    while i < |indices|
      invariant 0 <= i <= |indices|
      invariant ReadIndices(current, indices) == ReadIndices(value, indices[i..])
    {
      var index := Atoi(indices[i]);
      if index == None { return None; }
      var next := ReadIndex(value, index.value);
      if next == None { return None; }
      assert indices[i..][1..] == indices[i + 1..];
      value := next.value;
      i := i + 1;
    }
    return Some(value);
  }

  method ReadPathSegment(current: Json, segment: string) returns (found: Option<Json>)
    ensures found == ReadSegment(current, segment)
  {
    var whole := Atoi(segment);
    if whole.Some? { return ReadIndex(current, whole.value); }
    var access := Match(segment);
    if access == None { return None; }
    var value := current;
    var base := Trim(access.value.base);
    if base != "" {
      if !value.Object? || base !in value.record { return None; }
      value := value.record[base];
    }
    found := ReadAllIndices(value, access.value.indices);
    if base == "" && access.value.indices == [] { found := None; }
  }

  /** Where one segment leads: nowhere is `Null`, and a blank segment stays. */
  function Step(current: Json, segment: string): Json {
    if Trim(segment) == "" then current
    else
      match ReadSegment(current, Trim(segment))
      case None => Null
      case Some(next) => next
  }

  /** Where a list of segments leads. */
  function Walk(current: Json, segments: seq<string>): Json
    decreases |segments|
  {
    if segments == [] then current
    else
      var next := Step(current, segments[0]);
      if next == Null then Null else Walk(next, segments[1..])
  }

  function Normalize(path: string): string {
    var trimmed := Trim(path);
    if "$." <= trimmed then trimmed[2..] else if "$" <= trimmed then trimmed[1..] else trimmed
  }

  function Render(printer: Json -> string, value: Json): string {
    match value
    case Null => ""
    case Text(text) => text
    case _ => Trim(printer(value))
  }

  function Extract(printer: Json -> string, body: Json, path: string): string {
    if Normalize(path) == "" then "" else Render(printer, Walk(body, Split(Normalize(path))))
  }

  method WalkPath(body: Json, segments: seq<string>) returns (current: Json)
    ensures current == Walk(body, segments)
  {
    current := body;
    var i := 0;
    while i < |segments|
      invariant 0 <= i <= |segments|
      invariant Walk(body, segments) == Walk(current, segments[i..])
    {
      assert segments[i..][1..] == segments[i + 1..];
      var segment := Trim(segments[i]);
      if segment != "" {
        var next := ReadPathSegment(current, segment);
        if next == None || next.value == Null { return Null; }
        current := next.value;
      } else {
        NullStays(segments[i + 1..]);
      }
      i := i + 1;
    }
  }

  /** `extractTrackingJSONValue`. */
  method ExtractTrackingJsonValue(printer: Json -> string, body: Json, path: string) returns (value: string)
    ensures value == Extract(printer, body, path)
  {
    var normalized := Normalize(path);
    if normalized == "" { return ""; }
    var current := WalkPath(body, Split(normalized));
    return Render(printer, current);
  }

  /** Nothing is below `Null`. */
  lemma {:induction false} NullStays(segments: seq<string>)
    ensures Walk(Null, segments) == Null
  {
  }
}
