/** What happens to secrets in a diagnostic: which text replaces them, and that they are not in the result. */
module DiagnosticSecrets {
  import opened Bytes
  import opened Redaction
  import opened Runes
  import opened Utf8
  import opened Diagnostics

  // ------------------------------------------------------------------------------------------ replacement

  /** An empty secret does nothing, and no secrets do nothing. */
  lemma EmptySecretIsIgnored(value: seq<Byte>, more: seq<seq<Byte>>)
    ensures RedactAll(value, []) == value && RedactAll(value, [[]] + more) == RedactAll(value, more)
  {
    var secrets: seq<seq<Byte>> := [[]] + more;
    assert secrets[1..] == more;
  }

  /** Secrets act one after the other. */
  lemma {:induction false} SecretsActInOrder(value: seq<Byte>, first: seq<seq<Byte>>, second: seq<seq<Byte>>)
    ensures RedactAll(value, first + second) == RedactAll(RedactAll(value, first), second)
    decreases |first|
  {
    if first == [] {
      assert first + second == second;
    } else {
      assert (first + second)[1..] == first[1..] + second;
      var redacted := if first[0] == [] then value else Redact(value, first[0], Ascii("[REDACTED]"));
      SecretsActInOrder(redacted, first[1..], second);
    }
  }

  /** One secret: the pieces between its leftmost occurrences come out joined by the replacement, and so normalised. */
  lemma SecretIsReplaced(pieces: seq<seq<Byte>>, secret: seq<Byte>)
    requires secret != [] && LeftmostSplit(pieces, secret)
    ensures RedactAll(Join(pieces, secret), [secret]) == Join(pieces, Ascii("[REDACTED]"))
    ensures Sanitized(Join(pieces, secret), [secret]) == Sanitized(Join(pieces, Ascii("[REDACTED]")), [])
  {
    SplitRedacts(pieces, secret, Ascii("[REDACTED]"));
    var secrets := [secret];
    assert secrets[1..] == [];
    assert RedactAll(Join(pieces, secret), [secret]) == RedactAll(Join(pieces, Ascii("[REDACTED]")), []);
  }

  /** The replacement, byte by byte. */
  lemma ReplacementSpelledOut()
    ensures Ascii("[REDACTED]") == [0x5b, 0x52, 0x45, 0x44, 0x41, 0x43, 0x54, 0x45, 0x44, 0x5d]
  {
  }

  // ------------------------------------------------------------------------------------------ bytes that are not text

  /** What follows text is read as if it stood alone. */
  lemma {:induction false} DecodeAppends(before: seq<int>, after: seq<Byte>)
    requires Scalars(before)
    ensures Decode(Encode(before) + after) == before + Decode(after)
  {
    if before == [] {
      assert Encode(before) + after == after && before + Decode(after) == Decode(after);
    } else {
      DecodeAppends(before[1..], after);
      RuneInFront(before[0], Encode(before[1..]) + after);
      Regroup(EncodeRune(before[0]), Encode(before[1..]), after);
      RegroupRunes(before, Decode(after));
    }
  }

  lemma Regroup(a: seq<Byte>, b: seq<Byte>, c: seq<Byte>)
    ensures a + b + c == a + (b + c)
  {
  }

  lemma RegroupRunes(runes: seq<int>, more: seq<int>)
    requires runes != []
    ensures [runes[0]] + (runes[1..] + more) == runes + more
  {
  }

  /** Bytes that occur in no UTF-8 come out as U+FFFD, one each, and what is around them is read as it is. */
  lemma StrayByteIsReplaced(before: seq<int>, b: Byte, after: seq<Byte>)
    requires Scalars(before) && (b == 0xc0 || b == 0xc1 || 0xf5 <= b)
    ensures Decode(Encode(before) + [b] + after) == before + [0xfffd] + Decode(after)
  {
    DecodeAppends(before, [b] + after);
    StrayByteInFront(b, after);
    Regroup(Encode(before), [b], after);
    assert before + ([0xfffd] + Decode(after)) == before + [0xfffd] + Decode(after);
  }

  lemma StrayByteInFront(b: Byte, after: seq<Byte>)
    requires b == 0xc0 || b == 0xc1 || 0xf5 <= b
    ensures Decode([b] + after) == [0xfffd] + Decode(after)
  {
    assert ([b] + after)[1..] == after;
  }

  lemma RuneInFront(r: int, rest: seq<Byte>)
    requires Scalar(r)
    ensures Decode(EncodeRune(r) + rest) == [r] + Decode(rest)
  {
    RuneReadsBack(r, rest);
  }

  // ------------------------------------------------------------------------------------------ words

  lemma {:induction false} FieldsOfWord(word: seq<int>)
    requires word != [] && WordOnly(word)
    ensures Fields(word) == [word]
  {
    WordLengthOf(word, []);
    assert word + [] == word && word[..|word|] == word && word[|word|..] == [];
    assert Fields([]) == [];
  }

  /** A blanked character separates words, and nothing else does: with `KeptIsOneWord`, the words of a text are its
      longest runs of characters that are kept. */
  lemma {:induction false} BlankSeparates(a: seq<int>, c: int, b: seq<int>)
    requires Scalars(a) && Scalars(b) && Scalar(c) && Blanked(c)
    ensures Fields(Blank(a + [c] + b)) == Fields(Blank(a)) + Fields(Blank(b))
  {
    assert Blank(a + [c] + b) == Blank(a) + [SPACE] + Blank(b);
    SpaceSeparates(Blank(a), Blank(b));
  }

  lemma {:induction false} SpaceSeparates(a: seq<int>, b: seq<int>)
    ensures Fields(a + [SPACE] + b) == Fields(a) + Fields(b)
    decreases |a|
  {
    var whole := a + [SPACE] + b;
    if a == [] {
      assert whole[1..] == b;
      assert Fields([]) + Fields(b) == Fields(b);
    } else if IsSpace(a[0]) {
      assert whole[1..] == a[1..] + [SPACE] + b;
      SpaceSeparates(a[1..], b);
    } else {
      var n := WordLength(a);
      var word, rest := a[..n], a[n..];
      WordLengthOf(word, rest + [SPACE] + b);
      assert word + (rest + [SPACE] + b) == whole;
      assert whole[..n] == word && whole[n..] == rest + [SPACE] + b;
      SpaceSeparates(rest, b);
      assert [word] + (Fields(rest) + Fields(b)) == [word] + Fields(rest) + Fields(b);
    }
  }

  lemma KeptIsOneWord(runes: seq<int>)
    requires Word(runes)
    ensures Fields(Blank(runes)) == [runes]
  {
    assert Blank(runes) == runes;
    FieldsOfWord(runes);
  }

  // ------------------------------------------------------------------------------------------ secrets stay out

  /** Another secret's replacement does not bring a secret back that shares no byte with it. */
  lemma {:induction false} RedactKeepsOut(
    s: seq<Byte>, other: seq<Byte>, secret: seq<Byte>, replacement: seq<Byte>, i: nat)
    requires secret != [] && other != [] && replacement != []
    requires Disjoint(secret, replacement) && NoOccurrence(s, secret)
    ensures !OccursAt(Redact(s, other, replacement), secret, i)
  {
    var out := Redact(s, other, replacement);
    if OccursAt(out, secret, i) {
      assert out[i..][..|secret|][0] == out[i];
      if StartsWith(s, other) {
        if |replacement| <= i {
          var rest := s[|other|..];
          TailKeepsOut(s, secret, |other|);
          assert out[i..] == Redact(rest, other, replacement)[i - |replacement|..];
          RedactKeepsOut(rest, other, secret, replacement, i - |replacement|);
        }
      } else if i > 0 {
        TailKeepsOut(s, secret, 1);
        assert out[i..] == Redact(s[1..], other, replacement)[i - 1..];
        RedactKeepsOut(s[1..], other, secret, replacement, i - 1);
      } else {
        assert out[0..] == out;
        LiteralFront(s, other, replacement, |secret|);
        assert s[0..] == s;
        assert OccursAt(s, secret, 0);
      }
    }
  }

  lemma TailKeepsOut(s: seq<Byte>, secret: seq<Byte>, n: nat)
    requires NoOccurrence(s, secret) && n <= |s|
    ensures NoOccurrence(s[n..], secret)
  {
    forall i: nat | i <= |s| - n ensures !OccursAt(s[n..], secret, i) {
      assert s[n..][i..] == s[n + i..];
      assert !OccursAt(s, secret, n + i);
    }
  }

  lemma {:induction false} RedactAllKeepsOut(value: seq<Byte>, secrets: seq<seq<Byte>>, secret: seq<Byte>)
    requires secret != [] && Disjoint(secret, Ascii("[REDACTED]")) && NoOccurrence(value, secret)
    ensures NoOccurrence(RedactAll(value, secrets), secret)
    decreases |secrets|
  {
    if secrets != [] {
      var redacted := if secrets[0] == [] then value else Redact(value, secrets[0], Ascii("[REDACTED]"));
      if secrets[0] != [] {
        forall i: nat | i <= |redacted| ensures !OccursAt(redacted, secret, i) {
          RedactKeepsOut(value, secrets[0], secret, Ascii("[REDACTED]"), i);
        }
      }
      RedactAllKeepsOut(redacted, secrets[1..], secret);
    }
  }

  /** None of the secrets that share no byte with the replacement is in the redacted bytes. */
  lemma {:induction false} RedactAllIsClean(value: seq<Byte>, secrets: seq<seq<Byte>>, k: nat)
    requires k < |secrets| && secrets[k] != [] && Disjoint(secrets[k], Ascii("[REDACTED]"))
    ensures NoOccurrence(RedactAll(value, secrets), secrets[k])
    decreases |secrets|
  {
    var redacted := if secrets[0] == [] then value else Redact(value, secrets[0], Ascii("[REDACTED]"));
    if k == 0 {
      forall i: nat | i <= |redacted| ensures !OccursAt(redacted, secrets[0], i) {
        OutputIsClean(value, secrets[0], Ascii("[REDACTED]"), i);
      }
      RedactAllKeepsOut(redacted, secrets[1..], secrets[0]);
    } else {
      RedactAllIsClean(redacted, secrets[1..], k - 1);
    }
  }

  // ------------------------------------------------------------------------------------------ through the passes

  /** `part` stands at rune `k` of `runes`. */
  predicate Stands(runes: seq<int>, part: seq<int>, k: nat) {
    k <= |runes| && part <= runes[k..]
  }

  /** Bytes of valid text that occur in valid text stand there as runes. */
  lemma OccurrenceStands(runes: seq<int>, part: seq<int>, i: nat) returns (k: nat)
    requires Scalars(runes) && Scalars(part) && part != [] && OccursAt(Encode(runes), Encode(part), i)
    ensures Stands(runes, part, k)
  {
    var s := Encode(runes);
    FirstByteStarts(part);
    assert s[i] == s[i..][0] == Encode(part)[0];
    k := Boundary(runes, i);
    SuffixEncodes(runes, k, i);
    PrefixDecodes(runes[k..], part);
  }

  lemma FirstByteStarts(runes: seq<int>)
    requires Scalars(runes) && runes != []
    ensures Encode(runes) != [] && RuneStart(Encode(runes)[0])
  {
    assert Encode(runes)[0] == EncodeRune(runes[0])[0];
  }

  lemma SuffixEncodes(runes: seq<int>, k: nat, i: nat)
    requires Scalars(runes) && k <= |runes| && i <= |Encode(runes)| && Encode(runes[..k]) == Encode(runes)[..i]
    ensures Encode(runes)[i..] == Encode(runes[k..])
  {
    EncodeAppend(runes[..k], runes[k..]);
    assert runes[..k] + runes[k..] == runes;
  }

  lemma {:induction false} PrefixDecodes(runes: seq<int>, part: seq<int>)
    requires Scalars(runes) && Scalars(part) && Encode(part) <= Encode(runes)
    ensures part <= runes
  {
    if part != [] {
      var rest := Encode(runes)[|EncodeRune(part[0])|..];
      assert Encode(runes) == EncodeRune(part[0]) + rest;
      RuneReadsBack(part[0], rest);
      RuneReadsBack(runes[0], Encode(runes[1..]));
      assert Encode(part[1..]) <= Encode(runes[1..]) by {
        assert Encode(part)[|EncodeRune(part[0])|..] == Encode(part[1..]);
      }
      PrefixDecodes(runes[1..], part[1..]);
      assert part == [part[0]] + part[1..] && runes == [runes[0]] + runes[1..];
    }
  }

  /** What stands in joined words without a space stands in one of them. */
  lemma {:induction false} StandsInWord(words: seq<seq<int>>, part: seq<int>, k: nat) returns (w: nat, at: nat)
    requires part != [] && SPACE !in part && Stands(JoinWords(words), part, k)
    ensures w < |words| && Stands(words[w], part, at)
    decreases |words|
  {
    if |words| == 1 {
      w, at := 0, k;
    } else {
      var word, rest := words[0], JoinWords(words[1..]);
      var joined := word + [SPACE] + rest;
      assert part[0] == joined[k..][0];
      if k <= |word| {
        assert joined[|word|] == SPACE;
        assert forall i :: k <= i < k + |part| ==> joined[i] == part[i - k] && part[i - k] in part;
        assert part == joined[k..][..|part|] == word[k..][..|part|];
        w, at := 0, k;
      } else {
        assert joined[k..] == rest[k - |word| - 1..];
        w, at := StandsInWord(words[1..], part, k - |word| - 1);
        w := w + 1;
      }
    }
  }

  /** Every word stands in the text. */
  lemma {:induction false} WordStands(runes: seq<int>, w: nat) returns (k: nat)
    requires w < |Fields(runes)|
    ensures Stands(runes, Fields(runes)[w], k)
    decreases |runes|
  {
    if IsSpace(runes[0]) {
      var j := WordStands(runes[1..], w);
      assert runes[1..][j..] == runes[j + 1..];
      k := j + 1;
    } else if w == 0 {
      k := 0;
      assert runes[0..] == runes;
    } else {
      var n := WordLength(runes);
      var j := WordStands(runes[n..], w - 1);
      assert runes[n..][j..] == runes[n + j..];
      k := n + j;
    }
  }

  lemma StandsWithin(runes: seq<int>, word: seq<int>, part: seq<int>, k: nat, at: nat)
    requires Stands(runes, word, k) && Stands(word, part, at)
    ensures Stands(runes, part, k + at)
  {
    assert word == runes[k..][..|word|];
    assert runes[k + at..][..|part|] == runes[k..][at..][..|part|] == word[at..][..|part|];
  }

  /** What stands in blanked text without a space stood in the text. */
  lemma StoodBeforeBlanking(runes: seq<int>, part: seq<int>, k: nat)
    requires Scalars(runes) && SPACE !in part && Stands(Blank(runes), part, k)
    ensures Stands(runes, part, k)
  {
    forall j | 0 <= j < |part| ensures runes[k..][j] == part[j] {
      assert part[j] == Blank(runes)[k..][j] == Blank(runes)[k + j];
      assert part[j] in part;
    }
    assert runes[k..][..|part|] == part;
  }

  /** The bytes from which the runes from `k` on were decoded. */
  lemma {:induction false} DecodedFrom(s: seq<Byte>, k: nat) returns (p: nat)
    requires k <= |Decode(s)|
    ensures p <= |s| && Decode(s[p..]) == Decode(s)[k..]
    decreases |s|
  {
    if k == 0 {
      p := 0;
      assert s[0..] == s;
    } else {
      var w := if Width(s) == 0 then 1 else Width(s);
      var q := DecodedFrom(s[w..], k - 1);
      p := w + q;
      assert s[w..][q..] == s[p..];
      assert Decode(s)[1..] == Decode(s[w..]);
      assert Decode(s)[k..] == Decode(s)[1..][k - 1..];
    }
  }

  /** Runes other than U+FFFD were decoded from their own encoding. */
  lemma {:induction false} DecodedFromOwn(s: seq<Byte>, part: seq<int>)
    requires Scalars(part) && REPLACEMENT !in part && part <= Decode(s)
    ensures Encode(part) <= s
    decreases |part|
  {
    if part != [] {
      assert part[0] == Decode(s)[0] && part[0] in part;
      assert Width(s) > 0;
      var w := Width(s);
      ValueEncodes(s);
      assert Decode(s)[1..] == Decode(s[w..]);
      DecodedFromOwn(s[w..], part[1..]);
      assert s == s[..w] + s[w..];
      assert Encode(part) == s[..w] + Encode(part[1..]);
    }
  }

  lemma StandsOccurs(s: seq<Byte>, part: seq<int>, k: nat) returns (p: nat)
    requires Scalars(part) && REPLACEMENT !in part && Stands(Decode(s), part, k)
    ensures OccursAt(s, Encode(part), p)
  {
    p := DecodedFrom(s, k);
    DecodedFromOwn(s[p..], part);
    assert s[p..][..|Encode(part)|] == Encode(part);
  }

  // ------------------------------------------------------------------------------------------ main result

  /** Text that is kept: no control, format or space character, and not the replacement character. */
  predicate KeptText(runes: seq<int>) { Word(runes) && REPLACEMENT !in runes }

  /** What stands in the result without a space stood in the redacted text, and so occurred in its bytes. */
  lemma ResultComesFromBytes(value: seq<Byte>, secrets: seq<seq<Byte>>, part: seq<int>, i: nat) returns (p: nat)
    requires KeptText(part) && Scalars(Sanitized(value, secrets))
    requires OccursAt(Encode(Sanitized(value, secrets)), Encode(part), i)
    ensures OccursAt(RedactAll(value, secrets), Encode(part), p)
  {
    var result, normal, redacted := Sanitized(value, secrets), Normal(value, secrets), RedactAll(value, secrets);
    SanitizedIsClean(value, secrets);
    var k := OccurrenceStands(result, part, i);
    assert Stands(normal, part, k) by { assert result[k..] <= normal[k..]; }
    assert SPACE !in part by { assert Blanked(SPACE); }
    var blanked := Blank(Decode(redacted));
    var w, at := StandsInWord(Fields(blanked), part, k);
    var start := WordStands(blanked, w);
    StandsWithin(blanked, Fields(blanked)[w], part, start, at);
    StoodBeforeBlanking(Decode(redacted), part, start + at);
    p := StandsOccurs(redacted, part, start + at);
  }

  /** No secret that is kept text and shares no byte with the replacement is in the result, whatever the others. */
  lemma SecretStaysOut(value: seq<Byte>, secrets: seq<seq<Byte>>, k: nat, part: seq<int>)
    requires k < |secrets| && KeptText(part) && secrets[k] == Encode(part) && Disjoint(secrets[k], Ascii("[REDACTED]"))
    ensures Scalars(Sanitized(value, secrets)) && NoOccurrence(Encode(Sanitized(value, secrets)), secrets[k])
  {
    SanitizedIsClean(value, secrets);
    assert secrets[k] != [] by { assert Encode(part) == EncodeRune(part[0]) + Encode(part[1..]); }
    RedactAllIsClean(value, secrets, k);
    var out := Encode(Sanitized(value, secrets));
    forall i: nat | i <= |out| ensures !OccursAt(out, secrets[k], i) {
      if OccursAt(out, secrets[k], i) {
        var p := ResultComesFromBytes(value, secrets, part, i);
        assert false;
      }
    }
  }

  /** The replacement character is no exception to be passed over: as a secret it does come back, from a byte that is
      not UTF-8. */
  lemma ReplacementCharacterComesBack()
    ensures var secret := Encode([REPLACEMENT]);
            && RedactAll([0xff], [secret]) == [0xff]
            && Sanitized([0xff], [secret]) == [REPLACEMENT]
  {
    var secret := Encode([REPLACEMENT]);
    var value: seq<Byte>, secrets: seq<seq<Byte>>, runes: seq<int> := [0xff], [secret], [REPLACEMENT];
    assert runes[1..] == [] && value[1..] == [] && secrets[1..] == [];
    assert secret == EncodeRune(REPLACEMENT) + Encode([]);
    assert |secret| == 3;
    assert Redact([0xff], secret, Ascii("[REDACTED]")) == [0xff] + Redact([], secret, Ascii("[REDACTED]"));
    assert RedactAll([0xff], [secret]) == RedactAll([0xff], []);
    assert Decode([0xff]) == [REPLACEMENT] + Decode([]);
    KeptIsOneWord([REPLACEMENT]);
    assert JoinWords([[REPLACEMENT]]) == [REPLACEMENT];
    NormalIsClean([0xff], [secret]);
  }
}
