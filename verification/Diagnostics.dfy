/** The normal form of a diagnostic: secrets replaced, one line of single-spaced words in valid UTF-8, at most 4096
    bytes long. */
module Diagnostics {
  import opened Bytes
  import opened Redaction
  import opened Runes
  import opened Utf8

  const MAX_DIAGNOSTIC_BYTES := 4096

  const SPACE := 0x20

  // ------------------------------------------------------------------------------------------ the passes

  /** Replaces each secret that is not empty, in the order given. */
  function RedactAll(value: seq<Byte>, secrets: seq<seq<Byte>>): seq<Byte>
    decreases |secrets|
  {
    if secrets == [] then value
    else
      var redacted := if secrets[0] == [] then value else Redact(value, secrets[0], Ascii("[REDACTED]"));
      RedactAll(redacted, secrets[1..])
  }

  predicate Blanked(r: int) { IsControl(r) || IsFormat(r) || IsSpace(r) }

  /** Every control, format and space character becomes a space (`strings.Map`). */
  function Blank(runes: seq<int>): (blanked: seq<int>)
    requires Scalars(runes)
    ensures Scalars(blanked)
  {
    seq(|runes|, i requires 0 <= i < |runes| => if Blanked(runes[i]) then SPACE else runes[i])
  }

  function WordLength(runes: seq<int>): (n: nat)
    ensures n <= |runes| && WordOnly(runes[..n]) && (n == |runes| || IsSpace(runes[n]))
  {
    if runes == [] || IsSpace(runes[0]) then 0
    else
      var n := WordLength(runes[1..]);
      assert runes[..n + 1] == [runes[0]] + runes[1..][..n];
      n + 1
  }

  predicate WordOnly(runes: seq<int>) { forall i :: 0 <= i < |runes| ==> !IsSpace(runes[i]) }

  /** The words between spaces (`strings.Fields`). */
  function Fields(runes: seq<int>): seq<seq<int>>
    decreases |runes|
  {
    if runes == [] then []
    else if IsSpace(runes[0]) then Fields(runes[1..])
    else [runes[..WordLength(runes)]] + Fields(runes[WordLength(runes)..])
  }

  function JoinWords(words: seq<seq<int>>): seq<int> {
    if words == [] then [] else if |words| == 1 then words[0] else words[0] + [SPACE] + JoinWords(words[1..])
  }

  /** The normal form before it is cut. */
  function Normal(value: seq<Byte>, secrets: seq<seq<Byte>>): seq<int> {
    JoinWords(Fields(Blank(Decode(RedactAll(value, secrets)))))
  }

  function TrimLeft(runes: seq<int>): seq<int> {
    if runes != [] && IsSpace(runes[0]) then TrimLeft(runes[1..]) else runes
  }

  function TrimRight(runes: seq<int>): seq<int> {
    if runes != [] && IsSpace(runes[|runes| - 1]) then TrimRight(runes[..|runes| - 1]) else runes
  }

  /** How many whole runes fit. */
  function FitCount(runes: seq<int>, limit: nat): (k: nat)
    requires Scalars(runes)
    ensures k <= |runes|
  {
    if runes == [] || |EncodeRune(runes[0])| > limit then 0
    else 1 + FitCount(runes[1..], limit - |EncodeRune(runes[0])|)
  }

  /** The runes of the sanitized diagnostic: the normal form, cut to as many whole runes as fit and trimmed. */
  function Sanitized(value: seq<Byte>, secrets: seq<seq<Byte>>): seq<int> {
    var normal := Normal(value, secrets);
    NormalIsClean(value, secrets);
    if |Encode(normal)| <= MAX_DIAGNOSTIC_BYTES then normal
    else TrimRight(TrimLeft(normal[..FitCount(normal, MAX_DIAGNOSTIC_BYTES)]))
  }

  // ------------------------------------------------------------------------------------------ single-spaced words

  /** Neither control nor format characters, and single spaces inside only. */
  predicate Clean(runes: seq<int>) {
    && Scalars(runes)
    && (forall i :: 0 <= i < |runes| && Blanked(runes[i]) ==> runes[i] == SPACE)
    && (runes != [] ==> runes[0] != SPACE && runes[|runes| - 1] != SPACE)
    && forall i :: 0 < i < |runes| && runes[i] == SPACE ==> runes[i - 1] != SPACE
  }

  /** A word: not empty, and of characters that are kept. */
  predicate Word(runes: seq<int>) {
    runes != [] && Scalars(runes) && forall i :: 0 <= i < |runes| ==> !Blanked(runes[i])
  }

  predicate Words(words: seq<seq<int>>) { forall i :: 0 <= i < |words| ==> Word(words[i]) }

  predicate Blankless(runes: seq<int>) {
    Scalars(runes) && forall i :: 0 <= i < |runes| && Blanked(runes[i]) ==> runes[i] == SPACE
  }

  lemma {:induction false} FieldsAreWords(runes: seq<int>)
    requires Blankless(runes)
    ensures Words(Fields(runes))
    decreases |runes|
  {
    if runes != [] {
      if IsSpace(runes[0]) {
        FieldsAreWords(runes[1..]);
      } else {
        var n := WordLength(runes);
        assert Word(runes[..n]) by {
          forall i | 0 <= i < n ensures !Blanked(runes[..n][i]) { assert !IsSpace(runes[..n][i]); }
        }
        FieldsAreWords(runes[n..]);
      }
    }
  }

  /** Words joined with spaces are clean. */
  lemma {:induction false} JoinIsClean(words: seq<seq<int>>)
    requires Words(words)
    ensures Clean(JoinWords(words)) && (words != [] ==> JoinWords(words) != [])
  {
    if |words| == 1 {
      assert Word(words[0]);
    } else if |words| > 1 {
      assert Word(words[0]);
      JoinIsClean(words[1..]);
      CleanAfterWord(words[0], JoinWords(words[1..]));
    }
  }

  lemma CleanAfterWord(word: seq<int>, rest: seq<int>)
    requires Word(word) && Clean(rest) && rest != []
    ensures Clean(word + [SPACE] + rest)
  {
    var runes := word + [SPACE] + rest;
    forall i | 0 < i < |runes| && runes[i] == SPACE ensures runes[i - 1] != SPACE {
      if i <= |word| {
        assert runes[i - 1] == word[i - 1];
      } else {
        assert runes[i] == rest[i - |word| - 1];
      }
    }
  }

  lemma NormalIsClean(value: seq<Byte>, secrets: seq<seq<Byte>>)
    ensures Clean(Normal(value, secrets)) && Scalars(Normal(value, secrets))
  {
    var blanked := Blank(Decode(RedactAll(value, secrets)));
    FieldsAreWords(blanked);
    JoinIsClean(Fields(blanked));
  }

  lemma {:induction false} WordLengthOf(word: seq<int>, tail: seq<int>)
    requires WordOnly(word)
    requires tail == [] || IsSpace(tail[0])
    ensures WordLength(word + tail) == |word|
  {
    if word == [] {
      assert word + tail == tail;
    } else {
      WordLengthOf(word[1..], tail);
      assert (word + tail)[1..] == word[1..] + tail;
    }
  }

  /** The words of a word, a space and a rest. */
  lemma FieldsAfterWord(word: seq<int>, rest: seq<int>)
    requires word != [] && WordOnly(word)
    ensures Fields(word + [SPACE] + rest) == [word] + Fields(rest)
  {
    var tail := [SPACE] + rest;
    WordLengthOf(word, tail);
    assert word + [SPACE] + rest == word + tail;
    assert (word + tail)[0] == word[0] && (word + tail)[..|word|] == word && (word + tail)[|word|..] == tail;
    assert tail[1..] == rest;
  }

  lemma JoinAfterWord(word: seq<int>, words: seq<seq<int>>)
    requires words != []
    ensures JoinWords([word] + words) == word + [SPACE] + JoinWords(words)
  {
    assert ([word] + words)[1..] == words;
  }

  /** Splitting undoes joining: the words and their order survive. */
  lemma {:induction false} FieldsOfJoin(words: seq<seq<int>>)
    requires Words(words)
    ensures Fields(JoinWords(words)) == words
  {
    if words != [] {
      assert Word(words[0]);
      if |words| == 1 {
        WordLengthOf(words[0], []);
        assert words[0] + [] == words[0] && words[0][..|words[0]|] == words[0] && words[0][|words[0]|..] == [];
        assert words == [words[0]];
      } else {
        FieldsOfJoin(words[1..]);
        FieldsAfterWord(words[0], JoinWords(words[1..]));
        assert words == [words[0]] + words[1..];
      }
    }
  }

  lemma CleanTail(runes: seq<int>, n: nat)
    requires Clean(runes) && n < |runes| && runes[n] != SPACE
    ensures Clean(runes[n..])
  {
  }

  /** Clean text with a space in it is a word, the space, and clean text. */
  lemma CleanSplits(runes: seq<int>) returns (n: nat)
    requires Clean(runes) && runes != [] && WordLength(runes) < |runes|
    ensures 1 <= n < |runes| - 1 && WordOnly(runes[..n]) && Clean(runes[n + 1..])
    ensures runes == runes[..n] + [SPACE] + runes[n + 1..]
  {
    n := WordLength(runes);
    assert !IsSpace(runes[0]);
    assert runes[n] == SPACE && runes[n + 1] != SPACE;
    CleanTail(runes, n + 1);
  }

  lemma {:induction false} FieldsNotEmpty(runes: seq<int>)
    requires runes != [] && !IsSpace(runes[0])
    ensures Fields(runes) != []
  {
  }

  lemma WholeWord(runes: seq<int>)
    requires runes != [] && !IsSpace(runes[0]) && WordLength(runes) == |runes|
    ensures JoinWords(Fields(runes)) == runes
  {
    assert runes[|runes|..] == [] && runes[..|runes|] == runes;
    assert Fields([]) == [];
  }

  /** Clean text is left as it is. */
  lemma {:induction false} CleanIsNormal(runes: seq<int>)
    requires Clean(runes)
    ensures JoinWords(Fields(runes)) == runes
    decreases |runes|
  {
    if runes != [] {
      if WordLength(runes) == |runes| {
        WholeWord(runes);
      } else {
        var n := CleanSplits(runes);
        var word, rest := runes[..n], runes[n + 1..];
        CleanIsNormal(rest);
        FieldsNotEmpty(rest);
        FieldsAfterWord(word, rest);
        JoinAfterWord(word, Fields(rest));
      }
    }
  }

  lemma CleanIsBlank(runes: seq<int>)
    requires Clean(runes)
    ensures Blank(runes) == runes
  {
  }

  // ------------------------------------------------------------------------------------------ the cut

  lemma {:induction false} FitCountIsLargest(runes: seq<int>, limit: nat)
    requires Scalars(runes)
    ensures var k := FitCount(runes, limit);
            && |Encode(runes[..k])| <= limit
            && (k < |runes| ==> limit < |Encode(runes[..k + 1])| <= limit + 4 && limit - 3 <= |Encode(runes[..k])|)
  {
    var k := FitCount(runes, limit);
    if k > 0 {
      var first := EncodeRune(runes[0]);
      FitCountIsLargest(runes[1..], limit - |first|);
      assert runes[..k][1..] == runes[1..][..k - 1];
      if k < |runes| { assert runes[..k + 1][1..] == runes[1..][..k]; }
    } else if runes != [] {
      assert runes[..1] == [runes[0]];
      assert Encode([runes[0]]) == EncodeRune(runes[0]) + Encode([]);
    }
  }

  lemma {:induction false} EncodeGrows(runes: seq<int>, i: nat, j: nat)
    requires Scalars(runes) && i < j <= |runes|
    ensures |Encode(runes[..i])| < |Encode(runes[..j])|
  {
    EncodeAppend(runes[..i], runes[i..j]);
    assert runes[..i] + runes[i..j] == runes[..j];
  }

  /** The largest prefix of whole runes is determined by its bounds. */
  lemma FitCountIs(runes: seq<int>, limit: nat, k: nat)
    requires Scalars(runes) && k <= |runes|
    requires |Encode(runes[..k])| <= limit && (k < |runes| ==> limit < |Encode(runes[..k + 1])|)
    ensures FitCount(runes, limit) == k
  {
    var n := FitCount(runes, limit);
    FitCountIsLargest(runes, limit);
    if n < k {
      if n + 1 < k { EncodeGrows(runes, n + 1, k); }
    } else if k < n {
      if k + 1 < n { EncodeGrows(runes, k + 1, n); }
    }
  }

  /** A prefix of clean text loses at most a last space by trimming. */
  lemma CutIsClean(runes: seq<int>, k: nat) returns (m: nat)
    requires Clean(runes) && k <= |runes|
    ensures m <= k <= m + 1 && TrimRight(TrimLeft(runes[..k])) == runes[..m] && Clean(runes[..m])
    ensures m < k ==> runes[m] == SPACE
  {
    var prefix := runes[..k];
    assert TrimLeft(prefix) == prefix;
    if k > 0 && IsSpace(prefix[k - 1]) {
      m := k - 1;
      assert prefix[..m] == runes[..m];
      assert runes[m] == SPACE;
      assert m > 0 ==> !IsSpace(runes[m - 1]);
      assert TrimRight(runes[..m]) == runes[..m];
    } else {
      m := k;
    }
  }

  // ------------------------------------------------------------------------------------------ the result

  lemma SpaceIsShort(runes: seq<int>, m: nat)
    requires Scalars(runes) && m < |runes| && runes[m] == SPACE
    ensures |Encode(runes[..m + 1])| == |Encode(runes[..m])| + 1
  {
    EncodeAppend(runes[..m], [SPACE]);
    assert runes[..m] + [SPACE] == runes[..m + 1];
    assert Encode([SPACE]) == EncodeRune(SPACE) + Encode([]);
  }

  /** The cut text is clean, fits, and is at most four bytes short of the limit. */
  lemma CutBounds(runes: seq<int>, limit: nat)
    requires Clean(runes) && |Encode(runes)| > limit
    ensures var result := TrimRight(TrimLeft(runes[..FitCount(runes, limit)]));
            Clean(result) && result <= runes && limit - 4 <= |Encode(result)| <= limit
  {
    var k := FitCount(runes, limit);
    FitCountIsLargest(runes, limit);
    assert k < |runes| by { assert runes[..|runes|] == runes; }
    var m := CutIsClean(runes, k);
    if m < k { SpaceIsShort(runes, m); }
  }

  /** What the diagnostic is: clean, at most 4096 bytes, and the whole normal form if that fits. Otherwise it is a
      prefix of the normal form, shorter than the limit by at most the three bytes of a broken rune and one space. */
  lemma SanitizedIsClean(value: seq<Byte>, secrets: seq<seq<Byte>>)
    ensures var normal, result := Normal(value, secrets), Sanitized(value, secrets);
            && Clean(result) && Scalars(normal)
            && |Encode(result)| <= MAX_DIAGNOSTIC_BYTES
            && result <= normal
            && (|Encode(normal)| <= MAX_DIAGNOSTIC_BYTES ==> result == normal)
            && (|Encode(normal)| > MAX_DIAGNOSTIC_BYTES ==> |Encode(result)| >= MAX_DIAGNOSTIC_BYTES - 4)
  {
    var normal := Normal(value, secrets);
    NormalIsClean(value, secrets);
    if |Encode(normal)| > MAX_DIAGNOSTIC_BYTES { CutBounds(normal, MAX_DIAGNOSTIC_BYTES); }
  }

  /** Sanitizing again, with no secrets, changes nothing. */
  lemma SanitizedIsStable(value: seq<Byte>, secrets: seq<seq<Byte>>)
    ensures var result := Sanitized(value, secrets);
            Scalars(result) && Sanitized(Encode(result), []) == result
  {
    var result := Sanitized(value, secrets);
    SanitizedIsClean(value, secrets);
    EncodeReadsBack(result);
    CleanIsBlank(result);
    CleanIsNormal(result);
    assert RedactAll(Encode(result), []) == Encode(result);
  }

  /** The words of the diagnostic before the cut are those of the redacted text, in order. */
  lemma WordsSurvive(value: seq<Byte>, secrets: seq<seq<Byte>>)
    ensures Fields(Normal(value, secrets)) == Fields(Blank(Decode(RedactAll(value, secrets))))
  {
    var blanked := Blank(Decode(RedactAll(value, secrets)));
    FieldsAreWords(blanked);
    FieldsOfJoin(Fields(blanked));
  }

  // ------------------------------------------------------------------------------------------ the method

  /** Backs up from the limit to the start of a rune. */
  method FindCut(value: seq<Byte>, ghost runes: seq<int>) returns (cut: nat)
    requires Scalars(runes) && value == Encode(runes) && |value| > MAX_DIAGNOSTIC_BYTES
    ensures MAX_DIAGNOSTIC_BYTES - 3 <= cut <= MAX_DIAGNOSTIC_BYTES
    ensures value[..cut] == Encode(runes[..FitCount(runes, MAX_DIAGNOSTIC_BYTES)])
  {
    cut := MAX_DIAGNOSTIC_BYTES;
    while cut > 0 && !RuneStart(value[cut])
      invariant cut <= MAX_DIAGNOSTIC_BYTES
      invariant forall i :: cut < i <= MAX_DIAGNOSTIC_BYTES ==> !RuneStart(value[i])
    {
      cut := cut - 1;
    }
    CutFits(runes, cut, MAX_DIAGNOSTIC_BYTES);
  }

  lemma CutFits(runes: seq<int>, cut: nat, limit: nat)
    requires Scalars(runes) && cut <= limit < |Encode(runes)| && 3 <= limit
    requires cut == 0 || RuneStart(Encode(runes)[cut])
    requires forall i :: cut < i <= limit ==> !RuneStart(Encode(runes)[i])
    ensures Encode(runes)[..cut] == Encode(runes[..FitCount(runes, limit)]) && limit - 3 <= cut
  {
    var s := Encode(runes);
    assert RuneStart(s[0]);
    var k := Boundary(runes, cut);
    assert runes[..|runes|] == runes;
    NextBoundary(runes, k);
    FitCountIs(runes, limit, k);
    if cut < limit - 3 {
      NoFourInside(runes, limit - 3);
    }
  }

  /** The end of the next rune is the end of the text or starts another rune. */
  lemma NextBoundary(runes: seq<int>, k: nat)
    requires Scalars(runes) && k < |runes|
    ensures var next := |Encode(runes[..k + 1])|;
            && |Encode(runes[..k])| < next <= |Encode(runes)|
            && (next < |Encode(runes)| ==> RuneStart(Encode(runes)[next]))
  {
    EncodeGrows(runes, k, k + 1);
    EncodeAppend(runes[..k + 1], runes[k + 1..]);
    assert runes[..k + 1] + runes[k + 1..] == runes;
  }

  /** `strings.TrimSpace` on valid text. */
  function TrimSpace(s: seq<Byte>): seq<Byte>
    requires Valid(s)
  {
    Encode(TrimSpaceRunes(Decode(s)))
  }

  function TrimSpaceRunes(runes: seq<int>): (trimmed: seq<int>)
    requires Scalars(runes)
    ensures Scalars(trimmed)
  {
    TrimKeepsScalars(runes);
    TrimRight(TrimLeft(runes))
  }

  lemma TrimKeepsScalars(runes: seq<int>)
    requires Scalars(runes)
    ensures Scalars(TrimLeft(runes)) && Scalars(TrimRight(TrimLeft(runes)))
  {
    TrimLeftKeepsScalars(runes);
    TrimRightKeepsScalars(TrimLeft(runes));
  }

  lemma {:induction false} TrimLeftKeepsScalars(runes: seq<int>)
    requires Scalars(runes)
    ensures Scalars(TrimLeft(runes))
  {
    if runes != [] && IsSpace(runes[0]) { TrimLeftKeepsScalars(runes[1..]); }
  }

  lemma {:induction false} TrimRightKeepsScalars(runes: seq<int>)
    requires Scalars(runes)
    ensures Scalars(TrimRight(runes))
  {
    if runes != [] && IsSpace(runes[|runes| - 1]) { TrimRightKeepsScalars(runes[..|runes| - 1]); }
  }

  method RedactSecrets(value: seq<Byte>, secrets: seq<seq<Byte>>) returns (redacted: seq<Byte>)
    ensures redacted == RedactAll(value, secrets)
  {
    redacted := value;
    var i := 0;
    while i < |secrets|
      invariant 0 <= i <= |secrets|
      invariant RedactAll(value, secrets) == RedactAll(redacted, secrets[i..])
    {
      assert secrets[i..][1..] == secrets[i + 1..];
      if secrets[i] != [] { redacted := Redact(redacted, secrets[i], Ascii("[REDACTED]")); }
      i := i + 1;
    }
  }

  /** Not a line break or another control, not a mark that hides or turns text, and no other space than a blank. */
  predicate OneLine(r: int) {
    && 0x20 <= r && !(0x7f <= r <= 0xa0)
    && r != 0xad && !(0x2000 <= r <= 0x200f) && !(0x2028 <= r <= 0x202f) && !(0x205f <= r <= 0x206f && r != 0x2065)
    && r != 0x3000 && r != 0xfeff
  }

  lemma CleanIsOneLine(runes: seq<int>)
    requires Clean(runes)
    ensures forall i :: 0 <= i < |runes| ==> OneLine(runes[i])
  {
    forall i | 0 <= i < |runes| ensures OneLine(runes[i]) { assert Blanked(runes[i]) ==> runes[i] == SPACE; }
  }

  /** `sanitizeRuntimeDiagnostic`, on bytes. */
  method SanitizeDiagnostic(input: seq<Byte>, secrets: seq<seq<Byte>>) returns (value: seq<Byte>)
    ensures Scalars(Sanitized(input, secrets)) && value == Encode(Sanitized(input, secrets))
    ensures Valid(value) && |value| <= 4096 && Clean(Decode(value))
    // one line: no control character, no zero width or bidirectional mark, no space but single blanks between words
    ensures forall i :: 0 <= i < |Decode(value)| ==> OneLine(Decode(value)[i])
  {
    SanitizedIsClean(input, secrets);
    EncodeReadsBack(Sanitized(input, secrets));
    CleanIsOneLine(Sanitized(input, secrets));
    value := RedactSecrets(input, secrets);
    ghost var runes := Normal(input, secrets);
    value := MapAndJoin(value);
    if |value| <= MAX_DIAGNOSTIC_BYTES { return; }
    var cut := FindCut(value, runes);
    EncodeReadsBack(runes[..FitCount(runes, MAX_DIAGNOSTIC_BYTES)]);
    value := TrimSpace(value[..cut]);
  }

  /** The two library passes, each from bytes to bytes. */
  method MapAndJoin(redacted: seq<Byte>) returns (value: seq<Byte>)
    ensures var runes := JoinWords(Fields(Blank(Decode(redacted)))); Scalars(runes) && value == Encode(runes)
  {
    var mapped := Encode(Blank(Decode(redacted)));
    EncodeReadsBack(Blank(Decode(redacted)));
    NormalIsClean(redacted, []);
    value := Encode(JoinWords(Fields(Decode(mapped))));
  }
}
