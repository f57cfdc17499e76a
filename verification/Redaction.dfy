/** Leftmost non-overlapping replacement of a secret, the specification of every redaction of the launcher. */
module Redaction {
  import opened Bytes

  predicate StartsWith(s: seq<Byte>, secret: seq<Byte>) {
    |secret| <= |s| && s[..|secret|] == secret
  }

  /** `secret` occurs in `s` at position `i`. */
  predicate OccursAt(s: seq<Byte>, secret: seq<Byte>, i: nat) {
    i <= |s| && StartsWith(s[i..], secret)
  }

  /** Reads from the left and replaces each occurrence it meets. */
  function Redact(s: seq<Byte>, secret: seq<Byte>, replacement: seq<Byte>): seq<Byte>
    requires secret != []
  {
    if s == [] then []
    else if StartsWith(s, secret) then replacement + Redact(s[|secret|..], secret, replacement)
    else [s[0]] + Redact(s[1..], secret, replacement)
  }

  /** Bytes before the next occurrence pass unchanged. */
  lemma {:induction false} Skip(s: seq<Byte>, secret: seq<Byte>, replacement: seq<Byte>, n: nat)
    requires secret != [] && n <= |s|
    requires forall i :: 0 <= i < n ==> !OccursAt(s, secret, i)
    ensures Redact(s, secret, replacement) == s[..n] + Redact(s[n..], secret, replacement)
  {
    if n > 0 {
      assert s[0..] == s;
      assert !OccursAt(s, secret, 0);
      var t := s[1..];
      forall i | 0 <= i < n - 1 ensures !OccursAt(t, secret, i) {
        assert t[i..] == s[i + 1..];
        assert !OccursAt(s, secret, i + 1);
      }
      Skip(t, secret, replacement, n - 1);
      assert t[n - 1..] == s[n..];
      assert [s[0]] + t[..n - 1] == s[..n];
    } else {
      assert s[0..] == s;
    }
  }

  /** An occurrence at the front is replaced. */
  lemma Replace(s: seq<Byte>, secret: seq<Byte>, replacement: seq<Byte>)
    requires secret != [] && OccursAt(s, secret, 0)
    ensures Redact(s, secret, replacement) == replacement + Redact(s[|secret|..], secret, replacement)
  {
    assert s[0..] == s;
  }

  /** Whether an occurrence starts at `i` is settled by the first `i + |secret|` bytes. */
  lemma OccursEarly(s: seq<Byte>, more: seq<Byte>, secret: seq<Byte>, i: nat)
    requires i + |secret| <= |s|
    ensures OccursAt(s + more, secret, i) <==> OccursAt(s, secret, i)
  {
    assert (s + more)[i..][..|secret|] == s[i..][..|secret|];
  }

  // ------------------------------------------------------------------------------------------ an independent reading

  ghost predicate NoOccurrence(s: seq<Byte>, secret: seq<Byte>) {
    forall i: nat :: i <= |s| ==> !OccursAt(s, secret, i)
  }

  function Join(pieces: seq<seq<Byte>>, separator: seq<Byte>): seq<Byte>
    requires pieces != []
  {
    if |pieces| == 1 then pieces[0] else pieces[0] + separator + Join(pieces[1..], separator)
  }

  /** The pieces between the leftmost non-overlapping occurrences: no occurrence begins inside a piece, not even
      one that reaches into the occurrence after it. */
  ghost predicate LeftmostSplit(pieces: seq<seq<Byte>>, secret: seq<Byte>) {
    && pieces != []
    && NoOccurrence(pieces[|pieces| - 1], secret)
    && forall k, i: nat :: 0 <= k < |pieces| - 1 && i < |pieces[k]| ==> !OccursAt(pieces[k] + secret, secret, i)
  }

  /** Redaction is joining the same pieces with the replacement instead of the secret. */
  lemma {:induction false} SplitRedacts(pieces: seq<seq<Byte>>, secret: seq<Byte>, replacement: seq<Byte>)
    requires secret != [] && LeftmostSplit(pieces, secret)
    ensures Redact(Join(pieces, secret), secret, replacement) == Join(pieces, replacement)
  {
    var s, p := Join(pieces, secret), pieces[0];
    if |pieces| == 1 {
      Skip(s, secret, replacement, |s|);
      assert s[|s|..] == [] && s[..|s|] == s;
    } else {
      var rest := Join(pieces[1..], secret);
      assert s == p + secret + rest;
      forall i | 0 <= i < |p| ensures !OccursAt(s, secret, i) { OccursEarly(p + secret, rest, secret, i); }
      Skip(s, secret, replacement, |p|);
      assert s[|p|..] == secret + rest && s[..|p|] == p;
      assert (secret + rest)[0..] == secret + rest;
      Replace(secret + rest, secret, replacement);
      assert (secret + rest)[|secret|..] == rest;
      forall k, i: nat | 0 <= k < |pieces[1..]| - 1 && i < |pieces[1..][k]|
        ensures !OccursAt(pieces[1..][k] + secret, secret, i)
      {
        assert pieces[1..][k] == pieces[k + 1];
      }
      SplitRedacts(pieces[1..], secret, replacement);
    }
  }

  /** Every input has such a split, so the reading above covers all of them. */
  lemma {:induction false} SplitExists(s: seq<Byte>, secret: seq<Byte>) returns (pieces: seq<seq<Byte>>)
    requires secret != []
    ensures LeftmostSplit(pieces, secret) && Join(pieces, secret) == s
    decreases |s|
  {
    var n := IndexOf(s, secret);
    if n < 0 {
      pieces := [s];
    } else {
      var tail := s[n + |secret|..];
      var rest := SplitExists(tail, secret);
      pieces := [s[..n]] + rest;
      assert pieces[1..] == rest;
      assert s == s[..n] + secret + tail;
      forall k, i: nat | 0 <= k < |pieces| - 1 && i < |pieces[k]| ensures !OccursAt(pieces[k] + secret, secret, i) {
        if k == 0 { OccursEarly(s[..n] + secret, tail, secret, i); } else { assert pieces[k] == rest[k - 1]; }
      }
    }
  }

  /** The first position at which `secret` occurs, or -1 (`bytes.Index`). */
  function IndexOf(s: seq<Byte>, secret: seq<Byte>): (r: int)
    requires secret != []
    ensures -1 <= r
    ensures r < 0 ==> NoOccurrence(s, secret)
    ensures 0 <= r ==> r + |secret| <= |s| && s[r..r + |secret|] == secret && OccursAt(s, secret, r)
    ensures forall i: nat :: i < r ==> !OccursAt(s, secret, i)
  {
    assert s[0..] == s;
    if s == [] then -1
    else if StartsWith(s, secret) then 0
    else
      var r := IndexOf(s[1..], secret);
      assert forall i: nat :: 1 <= i <= |s| ==> s[i..] == s[1..][i - 1..];
      assert forall i: nat :: 1 <= i <= |s| ==> (OccursAt(s, secret, i) <==> OccursAt(s[1..], secret, i - 1));
      if r < 0 then -1 else r + 1
  }

  // ------------------------------------------------------------------------------------------ absence of the secret

  predicate Disjoint(a: seq<Byte>, b: seq<Byte>) {
    forall i, j :: 0 <= i < |a| && 0 <= j < |b| ==> a[i] != b[j]
  }

  lemma DisjointTail(a: seq<Byte>, b: seq<Byte>)
    requires a != [] && Disjoint(a, b)
    ensures Disjoint(a[1..], b)
  {
  }

  /** A stretch at the front of the output without replacement bytes is a stretch of the input. */
  lemma {:induction false} LiteralFront(s: seq<Byte>, secret: seq<Byte>, replacement: seq<Byte>, n: nat)
    requires secret != [] && replacement != []
    requires n <= |Redact(s, secret, replacement)| && Disjoint(Redact(s, secret, replacement)[..n], replacement)
    ensures n <= |s| && Redact(s, secret, replacement)[..n] == s[..n]
  {
    var out := Redact(s, secret, replacement);
    if n > 0 {
      assert out[..n][0] == out[0];
      if !StartsWith(s, secret) {
        var rest := Redact(s[1..], secret, replacement);
        assert out[..n][1..] == rest[..n - 1];
        DisjointTail(out[..n], replacement);
        LiteralFront(s[1..], secret, replacement, n - 1);
        assert out[..n] == [s[0]] + rest[..n - 1];
      }
    }
  }

  /** If the secret shares no byte with the replacement, redacted output does not contain it: not in a piece,
      and not across the joint of a piece and a replacement. */
  lemma {:induction false} OutputIsClean(s: seq<Byte>, secret: seq<Byte>, replacement: seq<Byte>, i: nat)
    requires secret != [] && replacement != [] && Disjoint(secret, replacement)
    ensures !OccursAt(Redact(s, secret, replacement), secret, i)
  {
    var out := Redact(s, secret, replacement);
    if OccursAt(out, secret, i) {
      assert out[i..][..|secret|][0] == out[i];
      if StartsWith(s, secret) {
        if |replacement| <= i {
          assert out[i..] == Redact(s[|secret|..], secret, replacement)[i - |replacement|..];
          OutputIsClean(s[|secret|..], secret, replacement, i - |replacement|);
        }
      } else if i > 0 {
        assert out[i..] == Redact(s[1..], secret, replacement)[i - 1..];
        OutputIsClean(s[1..], secret, replacement, i - 1);
      } else {
        assert out[0..] == out;
        LiteralFront(s, secret, replacement, |secret|);
      }
    }
  }
}
