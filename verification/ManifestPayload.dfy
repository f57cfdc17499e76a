/** The signed payload of a runtime manifest: a count, then fields of an identifier, a length and a value, all
    numbers big-endian. */
module ManifestPayload {
  import opened Wrappers
  import opened Bytes

  type Text = seq<Byte>
  type U32 = i: int | 0 <= i < 0x1_0000_0000
  type U64 = i: int | 0 <= i < 0x1_0000_0000_0000_0000

  const SCHEMA_VERSION: U32 := 2
  const MAX_PAYLOAD_BYTES := 16 * 1024

  datatype Claims = Claims(
    manifestVersion: U32,
    sdk: Text,
    runtimeVersion: Text,
    os: Text,
    arch: Text,
    protocol: U32,
    sha256: Text,
    byteLength: U64,
    downloadUrl: Text,
    executable: Text,
    issuedAt: U64,
    notBefore: U64,
    validUntil: U64,
    publisher: Text,
    releaseId: Text,
    repository: Text,
    sourceRef: Text,
    sourceSha: Text,
    workflowIdentity: Text,
    runId: U64,
    runAttempt: U32,
    wrapperModule: Text,
    wrapperVersion: Text,
    wrapperSum: Text,
    wrapperGoModSum: Text,
    wrapperTagObject: Text,
    wrapperCommit: Text,
    wrapperTree: Text,
    toolchain: Text,
    buildFlags: Text,
    attestationDigest: Text,
    attestationMediaType: Text)

  datatype Field = Field(id: nat, value: Text)

  function SignatureVersion(): Text { Ascii("publisher-ed25519-v2") }

  function SignatureDomain(): Text { Ascii("loadstrike.runtime-manifest") }

  function SignaturePurpose(): Text { Ascii("publisher-artifact-authentication") }

  predicate LowerHex(b: Byte) { 0x30 <= b <= 0x39 || 0x61 <= b <= 0x66 }

  /** `sha256:` and 64 lower-case hexadecimal digits. */
  predicate CanonicalKeyId(id: Text) {
    |id| == 71 && id[..7] == Ascii("sha256:") && forall i :: 7 <= i < 71 ==> LowerHex(id[i])
  }

  predicate StrictAscii(text: Text) { forall i :: 0 <= i < |text| ==> text[i] <= 0x7f }

  predicate Numeric(id: nat) { id in {3, 10, 15, 17, 20, 21, 22, 29, 30} }

  /** What the payload is for, who signs it and how. */
  function PurposeFields(algorithm: Text, keyId: Text): (fields: seq<Field>)
    ensures |fields| == 5
  {
    [ Field(1, SignatureDomain()),
      Field(2, SignaturePurpose()),
      Field(3, BigEndian(SCHEMA_VERSION, 4)),
      Field(4, algorithm),
      Field(5, keyId) ]
  }

  /** The claims about the artifact. */
  function ArtifactFields(c: Claims): (fields: seq<Field>)
    ensures |fields| == 13
  {
    [ Field(10, BigEndian(c.manifestVersion, 4)),
      Field(11, c.sdk),
      Field(12, c.runtimeVersion),
      Field(13, c.os),
      Field(14, c.arch),
      Field(15, BigEndian(c.protocol, 4)),
      Field(16, c.sha256),
      Field(17, BigEndian(c.byteLength, 8)),
      Field(18, c.downloadUrl),
      Field(19, c.executable),
      Field(20, BigEndian(c.issuedAt, 8)),
      Field(21, BigEndian(c.notBefore, 8)),
      Field(22, BigEndian(c.validUntil, 8)) ]
  }

  /** The claims about its release. */
  function ReleaseFields(c: Claims): (fields: seq<Field>)
    ensures |fields| == 8
  {
    [ Field(23, c.publisher),
      Field(24, c.releaseId),
      Field(25, c.repository),
      Field(26, c.sourceRef),
      Field(27, c.sourceSha),
      Field(28, c.workflowIdentity),
      Field(29, BigEndian(c.runId, 8)),
      Field(30, BigEndian(c.runAttempt, 4)) ]
  }

  /** The claims about the wrapper and the build. */
  function BuildFields(c: Claims): (fields: seq<Field>)
    ensures |fields| == 11
  {
    [ Field(31, c.wrapperModule),
      Field(32, c.wrapperVersion),
      Field(33, c.wrapperSum),
      Field(34, c.wrapperGoModSum),
      Field(35, c.wrapperTagObject),
      Field(36, c.wrapperCommit),
      Field(37, c.wrapperTree),
      Field(38, c.toolchain),
      Field(39, c.buildFlags),
      Field(40, c.attestationDigest),
      Field(41, c.attestationMediaType) ]
  }

  function FieldsOf(c: Claims, algorithm: Text, keyId: Text): (fields: seq<Field>)
    ensures |fields| == 37
  {
    PurposeFields(algorithm, keyId) + ArtifactFields(c) + ReleaseFields(c) + BuildFields(c)
  }

  /** The length prefix is a `uint32` conversion, which would wrap for a longer value. */
  function EncodeField(field: Field): Text {
    BigEndian(field.id, 2) + BigEndian(|field.value| % 0x1_0000_0000, 4) + field.value
  }

  function EncodeFields(fields: seq<Field>): Text {
    if fields == [] then [] else EncodeFields(fields[..|fields| - 1]) + EncodeField(fields[|fields| - 1])
  }

  predicate AsciiWhereText(fields: seq<Field>) {
    forall i :: 0 <= i < |fields| ==> Numeric(fields[i].id) || StrictAscii(fields[i].value)
  }

  datatype PayloadError = UnsupportedAlgorithm | InvalidKeyId | NotAscii | TooLarge

  datatype Payload = Signed(bytes: Text) | Refused(error: PayloadError)

  function CanonicalPayload(c: Claims, algorithm: Text, keyId: Text): Payload {
    var fields := FieldsOf(c, algorithm, keyId);
    var bytes := BigEndian(|fields|, 2) + EncodeFields(fields);
    if algorithm != SignatureVersion() then Refused(UnsupportedAlgorithm)
    else if !CanonicalKeyId(keyId) then Refused(InvalidKeyId)
    else if !AsciiWhereText(fields) then Refused(NotAscii)
    else if |bytes| > MAX_PAYLOAD_BYTES then Refused(TooLarge)
    else Signed(bytes)
  }

  /** Fills the buffer field by field; stops at text that is not ASCII. */
  method AppendFields(fields: seq<Field>, start: Text) returns (buffer: Text, ascii: bool)
    ensures ascii <==> AsciiWhereText(fields)
    ensures ascii ==> buffer == start + EncodeFields(fields)
  {
    buffer := start;
    var i := 0;
    while i < |fields|
      invariant 0 <= i <= |fields|
      invariant buffer == start + EncodeFields(fields[..i])
      invariant forall j :: 0 <= j < i ==> Numeric(fields[j].id) || StrictAscii(fields[j].value)
    {
      var field := fields[i];
      if !Numeric(field.id) && !StrictAscii(field.value) { return buffer, false; }
      buffer := buffer + BigEndian(field.id, 2);
      buffer := buffer + BigEndian(|field.value| % 0x1_0000_0000, 4);
      buffer := buffer + field.value;
      assert fields[..i + 1][..i] == fields[..i];
      i := i + 1;
    }
    assert fields[..i] == fields;
    ascii := true;
  }

  /** `runtimeManifestV2CanonicalPayload`. */
  method BuildPayload(c: Claims, algorithm: Text, keyId: Text) returns (payload: Payload)
    ensures payload == CanonicalPayload(c, algorithm, keyId)
  {
    if algorithm != SignatureVersion() { return Refused(UnsupportedAlgorithm); }
    if !CanonicalKeyId(keyId) { return Refused(InvalidKeyId); }
    var fields := FieldsOf(c, algorithm, keyId);
    var buffer, ascii := AppendFields(fields, BigEndian(|fields|, 2));
    if !ascii { return Refused(NotAscii); }
    if |buffer| > MAX_PAYLOAD_BYTES { return Refused(TooLarge); }
    return Signed(buffer);
  }

  // ------------------------------------------------------------------------------------------ reading it back

  function DecodeField(bytes: Text): Option<(Field, Text)> {
    if |bytes| < 6 then None
    else
      var length := FromBigEndian(bytes[2..6]);
      if |bytes| < 6 + length then None
      else Some((Field(FromBigEndian(bytes[..2]), bytes[6..6 + length]), bytes[6 + length..]))
  }

  function DecodeFields(bytes: Text, count: nat): Option<(seq<Field>, Text)> {
    if count == 0 then Some(([], bytes))
    else
      match DecodeField(bytes)
      case None => None
      case Some((field, rest)) =>
        match DecodeFields(rest, count - 1)
        case None => None
        case Some((fields, after)) => Some(([field] + fields, after))
  }

  /** No identifier and no length is cut off by its prefix. */
  predicate Encodable(field: Field) { field.id < 0x1_0000 && |field.value| < 0x1_0000_0000 }

  lemma FieldReadsBack(field: Field, rest: Text)
    requires Encodable(field)
    ensures DecodeField(EncodeField(field) + rest) == Some((field, rest))
  {
    var bytes := EncodeField(field) + rest;
    assert Limit(2) == 0x1_0000 by { assert Limit(1) == 256; }
    assert Limit(4) == 0x1_0000_0000 by { assert Limit(3) == 256 * Limit(2); }
    BigEndianReadsBack(field.id, 2);
    BigEndianReadsBack(|field.value|, 4);
    assert bytes[..2] == BigEndian(field.id, 2);
    assert bytes[2..6] == BigEndian(|field.value|, 4);
    assert bytes[6..6 + |field.value|] == field.value;
    assert bytes[6 + |field.value|..] == rest;
  }

  lemma {:induction false} EncodeFront(fields: seq<Field>)
    requires fields != []
    ensures EncodeFields(fields) == EncodeField(fields[0]) + EncodeFields(fields[1..])
  {
    var last := |fields| - 1;
    if last > 0 {
      EncodeFront(fields[..last]);
      assert fields[..last][1..] == fields[1..][..last - 1];
      assert fields[1..][last - 1] == fields[last];
    } else {
      assert fields[..0] == [] && fields[1..] == [];
    }
  }

  lemma DecodeStep(bytes: Text, field: Field, more: Text, count: nat, fields: seq<Field>, rest: Text)
    requires DecodeField(bytes) == Some((field, more)) && DecodeFields(more, count) == Some((fields, rest))
    ensures DecodeFields(bytes, count + 1) == Some(([field] + fields, rest))
  {
  }

  lemma Regroup(a: Text, b: Text, c: Text)
    ensures (a + b) + c == a + (b + c)
  {
  }

  lemma FrontThenRest(fields: seq<Field>, rest: Text)
    requires fields != []
    ensures EncodeFields(fields) + rest == EncodeField(fields[0]) + (EncodeFields(fields[1..]) + rest)
  {
    EncodeFront(fields);
    Regroup(EncodeField(fields[0]), EncodeFields(fields[1..]), rest);
  }

  lemma {:induction false} FieldsReadBack(fields: seq<Field>, rest: Text)
    requires forall i :: 0 <= i < |fields| ==> Encodable(fields[i])
    ensures DecodeFields(EncodeFields(fields) + rest, |fields|) == Some((fields, rest))
  {
    if fields == [] {
      assert EncodeFields(fields) + rest == rest;
    } else {
      var more := EncodeFields(fields[1..]) + rest;
      FrontThenRest(fields, rest);
      FieldReadsBack(fields[0], more);
      FieldsReadBack(fields[1..], rest);
      DecodeStep(EncodeField(fields[0]) + more, fields[0], more, |fields| - 1, fields[1..], rest);
      assert fields == [fields[0]] + fields[1..];
    }
  }

  lemma {:induction false} FieldIsShorter(fields: seq<Field>, i: nat)
    requires i < |fields|
    ensures |fields[i].value| <= |EncodeFields(fields)|
  {
    if i < |fields| - 1 { FieldIsShorter(fields[..|fields| - 1], i); }
  }

  /** A payload within the size limit has no truncated length. */
  lemma NoTruncation(c: Claims, algorithm: Text, keyId: Text)
    requires CanonicalPayload(c, algorithm, keyId).Signed?
    ensures forall i :: 0 <= i < 37 ==>
              Encodable(FieldsOf(c, algorithm, keyId)[i])
              && |FieldsOf(c, algorithm, keyId)[i].value| < MAX_PAYLOAD_BYTES
  {
    var fields := FieldsOf(c, algorithm, keyId);
    forall i | 0 <= i < 37 ensures Encodable(fields[i]) && |fields[i].value| < MAX_PAYLOAD_BYTES {
      FieldIsShorter(fields, i);
    }
  }

  // ------------------------------------------------------------------------------------------ the whole payload

  function ReadU32(field: Field): U32 { FromBigEndian(field.value) % 0x1_0000_0000 }

  function ReadU64(field: Field): U64 { FromBigEndian(field.value) % 0x1_0000_0000_0000_0000 }

  function ClaimsOf(f: seq<Field>): Claims
    requires |f| == 37
  {
    Claims(ReadU32(f[5]), f[6].value, f[7].value, f[8].value, f[9].value, ReadU32(f[10]), f[11].value,
           ReadU64(f[12]), f[13].value, f[14].value, ReadU64(f[15]), ReadU64(f[16]), ReadU64(f[17]),
           f[18].value, f[19].value, f[20].value, f[21].value, f[22].value, f[23].value,
           ReadU64(f[24]), ReadU32(f[25]), f[26].value, f[27].value, f[28].value, f[29].value, f[30].value,
           f[31].value, f[32].value, f[33].value, f[34].value, f[35].value, f[36].value)
  }

  /** Reads the claims, the algorithm and the key identifier off a payload, and what follows it. */
  function DecodePayload(bytes: Text): Option<(Claims, Text, Text, Text)> {
    if |bytes| < 2 then None
    else
      match DecodeFields(bytes[2..], FromBigEndian(bytes[..2]))
      case None => None
      case Some((fields, rest)) =>
        if |fields| != 37 then None
        else Some((ClaimsOf(fields), fields[3].value, fields[4].value, rest))
  }

  lemma NumbersReadBack(small: U32, large: U64)
    ensures ReadU32(Field(0, BigEndian(small, 4))) == small
    ensures ReadU64(Field(0, BigEndian(large, 8))) == large
  {
    assert Limit(4) == 0x1_0000_0000 by { assert Limit(3) == 256 * Limit(2); }
    assert Limit(8) == 0x1_0000_0000 * 0x1_0000_0000 by {
      assert Limit(5) == 256 * Limit(4) && Limit(6) == 256 * Limit(5) && Limit(7) == 256 * Limit(6);
    }
    BigEndianReadsBack(small, 4);
    BigEndianReadsBack(large, 8);
  }

  lemma ClaimsReadBack(c: Claims, algorithm: Text, keyId: Text)
    ensures ClaimsOf(FieldsOf(c, algorithm, keyId)) == c
  {
    NumbersReadBack(c.manifestVersion, c.byteLength);
    NumbersReadBack(c.protocol, c.issuedAt);
    NumbersReadBack(c.runAttempt, c.notBefore);
    NumbersReadBack(c.runAttempt, c.validUntil);
    NumbersReadBack(c.runAttempt, c.runId);
  }

  lemma CountReadsBack(count: nat)
    requires count < 0x1_0000
    ensures FromBigEndian(BigEndian(count, 2)) == count
  {
    assert Limit(2) == 0x1_0000 by { assert Limit(1) == 256; }
    BigEndianReadsBack(count, 2);
  }

  lemma FrameParts(head: Text, body: Text, more: Text)
    requires |head| == 2
    ensures var bytes := head + body + more; |bytes| >= 2 && bytes[..2] == head && bytes[2..] == body + more
  {
  }

  lemma FramedReadsBack(fields: seq<Field>, more: Text)
    requires |fields| < 0x1_0000 && forall i :: 0 <= i < |fields| ==> Encodable(fields[i])
    ensures var bytes := BigEndian(|fields|, 2) + EncodeFields(fields) + more;
            && |bytes| >= 2 && FromBigEndian(bytes[..2]) == |fields|
            && DecodeFields(bytes[2..], |fields|) == Some((fields, more))
  {
    CountReadsBack(|fields|);
    FrameParts(BigEndian(|fields|, 2), EncodeFields(fields), more);
    FieldsReadBack(fields, more);
  }

  lemma CountedReadsBack(fields: seq<Field>, more: Text)
    requires |fields| == 37 && forall i :: 0 <= i < |fields| ==> Encodable(fields[i])
    ensures DecodePayload(BigEndian(|fields|, 2) + EncodeFields(fields) + more)
            == Some((ClaimsOf(fields), fields[3].value, fields[4].value, more))
  {
    FramedReadsBack(fields, more);
  }

  lemma SignedFields(c: Claims, algorithm: Text, keyId: Text, bytes: Text) returns (fields: seq<Field>)
    requires CanonicalPayload(c, algorithm, keyId) == Signed(bytes)
    ensures |fields| == 37 && forall i :: 0 <= i < |fields| ==> Encodable(fields[i])
    ensures bytes == BigEndian(|fields|, 2) + EncodeFields(fields)
    ensures ClaimsOf(fields) == c && fields[3].value == algorithm && fields[4].value == keyId
  {
    fields := FieldsOf(c, algorithm, keyId);
    NoTruncation(c, algorithm, keyId);
    ClaimsReadBack(c, algorithm, keyId);
    NamesOf(c, algorithm, keyId);
    SignedBytes(c, algorithm, keyId);
  }

  lemma SignedBytes(c: Claims, algorithm: Text, keyId: Text)
    requires CanonicalPayload(c, algorithm, keyId).Signed?
    ensures var fields := FieldsOf(c, algorithm, keyId);
            CanonicalPayload(c, algorithm, keyId).bytes == BigEndian(|fields|, 2) + EncodeFields(fields)
  {
  }

  lemma NamesOf(c: Claims, algorithm: Text, keyId: Text)
    ensures var fields := FieldsOf(c, algorithm, keyId); fields[3].value == algorithm && fields[4].value == keyId
  {
  }

  /** What was signed can be read back from the payload, also when more bytes follow. */
  lemma PayloadReadsBack(c: Claims, algorithm: Text, keyId: Text, more: Text)
    requires CanonicalPayload(c, algorithm, keyId).Signed?
    ensures DecodePayload(CanonicalPayload(c, algorithm, keyId).bytes + more) == Some((c, algorithm, keyId, more))
  {
    var fields := SignedFields(c, algorithm, keyId, CanonicalPayload(c, algorithm, keyId).bytes);
    CountedReadsBack(fields, more);
  }

  /** No two different (claims, algorithm, key) have payloads one of which begins with the other: a signature
      covers one manifest and one key only. */
  lemma PayloadIsPrefixFree(c: Claims, a: Text, k: Text, c': Claims, a': Text, k': Text)
    requires CanonicalPayload(c, a, k).Signed? && CanonicalPayload(c', a', k').Signed?
    requires CanonicalPayload(c, a, k).bytes <= CanonicalPayload(c', a', k').bytes
    ensures c == c' && a == a' && k == k'
  {
    var p, q := CanonicalPayload(c, a, k).bytes, CanonicalPayload(c', a', k').bytes;
    var more := q[|p|..];
    assert q == p + more && q == q + [];
    PayloadReadsBack(c, a, k, more);
    PayloadReadsBack(c', a', k', []);
  }
}
