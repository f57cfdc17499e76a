/** UTF-8 as section 3 of RFC 3629 defines it, decoded the way Go does: a byte that starts no well-formed sequence
    stands for U+FFFD. */
module Utf8 {
  import opened Bytes

  const REPLACEMENT := 0xfffd

  /** A Unicode scalar value. */
  predicate Scalar(r: int) { 0 <= r < 0xd800 || 0xe000 <= r <= 0x10ffff }

  predicate Scalars(runes: seq<int>) { forall i :: 0 <= i < |runes| ==> Scalar(runes[i]) }

  /** Whether a byte can start a sequence (`utf8.RuneStart`). */
  predicate RuneStart(b: Byte) { !(0x80 <= b <= 0xbf) }

  /** The length of the well-formed sequence at the front, 0 when there is none. */
  function Width(s: seq<Byte>): (w: nat)
    ensures w <= 4 && w <= |s|
  {
    if s == [] then 0
    else if s[0] <= 0x7f then 1
    else if |s| < 2 || RuneStart(s[1]) then 0
    else if 0xc2 <= s[0] <= 0xdf then 2
    else if |s| < 3 || RuneStart(s[2]) then 0
    else if s[0] == 0xe0 then (if s[1] >= 0xa0 then 3 else 0)
    else if s[0] == 0xed then (if s[1] <= 0x9f then 3 else 0)
    else if 0xe1 <= s[0] <= 0xef then 3
    else if |s| < 4 || RuneStart(s[3]) then 0
    else if s[0] == 0xf0 then (if s[1] >= 0x90 then 4 else 0)
    else if s[0] == 0xf4 then (if s[1] <= 0x8f then 4 else 0)
    else if 0xf1 <= s[0] <= 0xf3 then 4
    else 0
  }

  /** The scalar value of the well-formed sequence at the front. */
  function Value(s: seq<Byte>): (r: int)
    requires Width(s) > 0
    ensures Scalar(r)
  {
    match Width(s)
    case 1 => s[0]
    case 2 => (s[0] as int - 0xc0) * 64 + (s[1] as int - 0x80)
    case 3 => (s[0] as int - 0xe0) * 4096 + (s[1] as int - 0x80) * 64 + (s[2] as int - 0x80)
    case _ =>
      (s[0] as int - 0xf0) * 262144 + (s[1] as int - 0x80) * 4096 + (s[2] as int - 0x80) * 64 + (s[3] as int - 0x80)
  }

  predicate Valid(s: seq<Byte>)
    decreases |s|
  {
    s == [] || (Width(s) > 0 && Valid(s[Width(s)..]))
  }

  function Decode(s: seq<Byte>): (runes: seq<int>)
    ensures Scalars(runes)
    decreases |s|
  {
    if s == [] then []
    else if Width(s) == 0 then [REPLACEMENT] + Decode(s[1..])
    else [Value(s)] + Decode(s[Width(s)..])
  }

  function EncodeRune(r: int): (s: seq<Byte>)
    requires Scalar(r)
    ensures 1 <= |s| <= 4 && RuneStart(s[0]) && forall i :: 1 <= i < |s| ==> !RuneStart(s[i])
  {
    if r < 0x80 then [r]
    else if r < 0x800 then [0xc0 + r / 64, 0x80 + r % 64]
    else if r < 0x10000 then [0xe0 + r / 4096, 0x80 + r / 64 % 64, 0x80 + r % 64]
    else [0xf0 + r / 262144, 0x80 + r / 4096 % 64, 0x80 + r / 64 % 64, 0x80 + r % 64]
  }

  function Encode(runes: seq<int>): seq<Byte>
    requires Scalars(runes)
  {
    if runes == [] then [] else EncodeRune(runes[0]) + Encode(runes[1..])
  }

  // ------------------------------------------------------------------------------------------ round trips

  /** The front of an encoding is read back, whatever follows. */
  lemma RuneReadsBack(r: int, rest: seq<Byte>)
    requires Scalar(r)
    ensures var s := EncodeRune(r) + rest; Width(s) == |EncodeRune(r)| && Value(s) == r && s[Width(s)..] == rest
  {
    if r < 0x800 { ShortReadsBack(r, rest); } else { LongReadsBack(r, rest); }
  }

  lemma ShortReadsBack(r: nat, rest: seq<Byte>)
    requires r < 0x800
    ensures var s := EncodeRune(r) + rest; Width(s) == |EncodeRune(r)| && Value(s) == r && s[Width(s)..] == rest
  {
    var s := EncodeRune(r) + rest;
    assert s[0] == EncodeRune(r)[0];
    if r >= 0x80 { assert s[1] == EncodeRune(r)[1]; }
  }

  lemma LongReadsBack(r: nat, rest: seq<Byte>)
    requires Scalar(r) && r >= 0x800
    ensures var s := EncodeRune(r) + rest; Width(s) == |EncodeRune(r)| && Value(s) == r && s[Width(s)..] == rest
  {
    var s := EncodeRune(r) + rest;
    if r < 0x10000 {
      assert s[0] == 0xe0 + r / 4096 && s[1] == 0x80 + r / 64 % 64 && s[2] == 0x80 + r % 64;
      ThreeDigits(r);
    } else {
      assert s[0] == 0xf0 + r / 262144 && s[1] == 0x80 + r / 4096 % 64;
      assert s[2] == 0x80 + r / 64 % 64 && s[3] == 0x80 + r % 64;
      FourDigits(r);
    }
  }

  lemma ThreeDigits(r: nat)
    ensures r == r / 4096 * 4096 + r / 64 % 64 * 64 + r % 64
  {
    assert r / 4096 == r / 64 / 64;
  }

  lemma FourDigits(r: nat)
    ensures r == r / 262144 * 262144 + r / 4096 % 64 * 4096 + r / 64 % 64 * 64 + r % 64
  {
    ThreeDigits(r);
    assert r / 262144 == r / 4096 / 64;
  }

  /** What was encoded is valid, and is decoded back. */
  lemma {:induction false} EncodeReadsBack(runes: seq<int>)
    requires Scalars(runes)
    ensures Valid(Encode(runes)) && Decode(Encode(runes)) == runes
  {
    if runes != [] {
      RuneReadsBack(runes[0], Encode(runes[1..]));
      EncodeReadsBack(runes[1..]);
    }
  }

  lemma Digit(high: nat, low: nat)
    requires low < 64
    ensures (high * 64 + low) / 64 == high && (high * 64 + low) % 64 == low
  {
  }

  lemma ThreeBytes(s: seq<Byte>)
    requires Width(s) == 3
    ensures EncodeRune(Value(s)) == s[..3]
  {
    var a, b, c := s[0] as int - 0xe0, s[1] as int - 0x80, s[2] as int - 0x80;
    var r := Value(s);
    assert r == (a * 64 + b) * 64 + c;
    Digit(a * 64 + b, c);
    Digit(a, b);
    assert r / 4096 == r / 64 / 64;
    assert r >= 0x800;
    assert EncodeRune(r) == [s[0], s[1], s[2]];
  }

  lemma FourBytes(s: seq<Byte>)
    requires Width(s) == 4
    ensures EncodeRune(Value(s)) == s[..4]
  {
    var a, b, c, d := s[0] as int - 0xf0, s[1] as int - 0x80, s[2] as int - 0x80, s[3] as int - 0x80;
    var r := Value(s);
    var high := (a * 64 + b) * 64 + c;
    assert r == high * 64 + d;
    Digit(high, d);
    Digit(a * 64 + b, c);
    Digit(a, b);
    assert r / 4096 == r / 64 / 64;
    assert r / 262144 == r / 4096 / 64;
    assert r >= 0x10000;
    assert EncodeRune(r) == [s[0], s[1], s[2], s[3]];
  }

  /** The front sequence is the encoding of its value. */
  lemma ValueEncodes(s: seq<Byte>)
    requires Width(s) > 0
    ensures EncodeRune(Value(s)) == s[..Width(s)]
  {
    match Width(s)
    case 1 => assert EncodeRune(Value(s)) == [s[0]];
    case 2 =>
      Digit(s[0] as int - 0xc0, s[1] as int - 0x80);
      assert EncodeRune(Value(s)) == [s[0], s[1]];
    case 3 => ThreeBytes(s);
    case _ => FourBytes(s);
  }

  /** Valid bytes are the encoding of what they decode to, and only they are. */
  lemma {:induction false} ValidReadsBack(s: seq<Byte>)
    ensures Valid(s) <==> Encode(Decode(s)) == s
    decreases |s|
  {
    EncodeReadsBack(Decode(s));
    if Valid(s) { ValidEncodes(s); }
  }

  lemma {:induction false} ValidEncodes(s: seq<Byte>)
    requires Valid(s)
    ensures Encode(Decode(s)) == s
    decreases |s|
  {
    if s != [] {
      var rest := Decode(s[Width(s)..]);
      ValidEncodes(s[Width(s)..]);
      ValueEncodes(s);
      assert Decode(s) == [Value(s)] + rest;
      FrontEncodes(s, Width(s), Value(s), rest);
    }
  }

  lemma FrontEncodes(s: seq<Byte>, w: nat, r: int, rest: seq<int>)
    requires w <= |s| && Scalar(r) && Scalars(rest) && EncodeRune(r) == s[..w] && Encode(rest) == s[w..]
    ensures Scalars([r] + rest) && Encode([r] + rest) == s
  {
    assert ([r] + rest)[1..] == rest;
    assert s == s[..w] + s[w..];
  }

  // ------------------------------------------------------------------------------------------ boundaries

  lemma {:induction false} EncodeAppend(a: seq<int>, b: seq<int>)
    requires Scalars(a) && Scalars(b)
    ensures Encode(a + b) == Encode(a) + Encode(b)
  {
    if a == [] {
      assert a + b == b;
    } else {
      EncodeAppend(a[1..], b);
      assert (a + b)[1..] == a[1..] + b;
    }
  }

  /** A place before a starting byte, or at the end, is a boundary between runes. */
  lemma {:induction false} Boundary(runes: seq<int>, cut: nat) returns (k: nat)
    requires Scalars(runes) && cut <= |Encode(runes)|
    requires cut == |Encode(runes)| || RuneStart(Encode(runes)[cut])
    ensures k <= |runes| && Encode(runes[..k]) == Encode(runes)[..cut]
  {
    if cut == 0 {
      k := 0;
    } else {
      var first, rest := EncodeRune(runes[0]), Encode(runes[1..]);
      var k' := Boundary(runes[1..], cut - |first|);
      k := k' + 1;
      assert runes[..k][1..] == runes[1..][..k'];
    }
  }

  /** Of four bytes in a row, one starts a sequence. */
  lemma {:induction false} NoFourInside(runes: seq<int>, p: nat)
    requires Scalars(runes) && p + 3 < |Encode(runes)|
    ensures exists i :: p <= i <= p + 3 && RuneStart(Encode(runes)[i])
  {
    var s, first, rest := Encode(runes), EncodeRune(runes[0]), Encode(runes[1..]);
    var w := |first|;
    if p >= w {
      NoFourInside(runes[1..], p - w);
      var i :| p - w <= i <= p - w + 3 && RuneStart(rest[i]);
      assert s[i + w] == rest[i];
    } else if p == 0 {
      assert RuneStart(s[0]);
    } else {
      assert s[w] == rest[0] == EncodeRune(runes[1..][0])[0];
      assert RuneStart(s[w]);
    }
  }
}
